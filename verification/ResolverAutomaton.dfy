/**
  The reference behaviour of the resolver runtime: every domain is an automaton
  of its own, in one of five phases (a domain that is not in the map is idle).

    idle        nothing known, nothing asked
    Cached      a live answer
    Stale       an expired answer that may still be served
    Refreshing  a stale answer being served while the driver is asked again
    Pending     no answer; the driver is asked and requests wait

  `ResolverRuntimes.FamilyRuntime` keeps three maps and a timer queue instead and is
  proved to follow this automaton step by step.
 */
module ResolverAutomaton {
  import opened Options
  import opened Bags
  import opened ResolverRecords

  type Sender = nat

  datatype Source = Cache | Trash | Query

  datatype Reply = Reply(sender: Sender, record: Record, source: Source)

  datatype Phase =
    | Cached(record: Record)
    | Stale(record: Record)
    | Refreshing(record: Record)
    | Pending(waiters: seq<Sender>)

  datatype Event =
    | Request(domain: Domain, sender: Sender)
    | Response(record: Record)
    | Expire(domain: Domain)
    | Clean(now: Instant)

  /** What one event does to the domain it is about. */
  datatype Effect = Effect(next: Option<Phase>, replies: seq<Reply>, asksDriver: bool)

  function Waiters(p: Option<Phase>): (ws: seq<Sender>) {
    if p.Some? && p.value.Pending? then p.value.waiters else []
  }

  predicate ServesStale(p: Option<Phase>) {
    p.Some? && (p.value.Stale? || p.value.Refreshing?)
  }

  predicate InFlight(p: Option<Phase>) {
    p.Some? && (p.value.Pending? || p.value.Refreshing?)
  }

  function RepliesTo(ws: seq<Sender>, r: Record, source: Source): (out: seq<Reply>)
    ensures |out| == |ws|
    ensures forall i :: 0 <= i < |ws| ==> out[i] == Reply(ws[i], r, source)
  {
    seq(|ws|, i requires 0 <= i < |ws| => Reply(ws[i], r, source))
  }

  /** The newest waiter is told the answer was queried for; the others count as cache hits. */
  function FanOut(ws: seq<Sender>, r: Record): (out: seq<Reply>) {
    if ws == [] then []
    else [Reply(ws[|ws| - 1], r, Query)] + RepliesTo(ws[..|ws| - 1], r, Cache)
  }

  function OnRequest(p: Option<Phase>, sender: Sender): (e: Effect) {
    match p
    case Some(Cached(r)) => Effect(p, [Reply(sender, r, Cache)], false)
    case Some(Stale(r)) => Effect(Some(Refreshing(r)), [Reply(sender, r, Trash)], true)
    case Some(Refreshing(r)) => Effect(p, [Reply(sender, r, Trash)], false)
    case Some(Pending(ws)) => Effect(Some(Pending(ws + [sender])), [], false)
    case None => Effect(Some(Pending([sender])), [], true)
  }

  function OnResponse(p: Option<Phase>, r: Record): (e: Effect) {
    if !r.IsAcceptable() && ServesStale(p) then
      Effect(Some(Stale(p.value.record)), [], false)
    else
      var next :=
        if r.expire.Some? then Some(Cached(r))
        else if p.Some? && p.value.Cached? then p
        else None;
      Effect(next, FanOut(Waiters(p), r), false)
  }

  function OnExpire(p: Option<Phase>): (e: Effect) {
    match p
    case Some(Cached(r)) => Effect(if r.vanish.Some? then Some(Stale(r)) else None, [], false)
    case _ => Effect(p, [], false)
  }

  function OnClean(p: Option<Phase>, now: Instant): (next: Option<Phase>) {
    match p
    case Some(Stale(r)) => if r.vanish.Some? && r.vanish.value > now then p else None
    case Some(Refreshing(r)) => if r.vanish.Some? && r.vanish.value > now then p else Some(Pending([]))
    case _ => p
  }

  /** All domains together, with everything the outside world has seen. */
  datatype State = State(phases: map<Domain, Phase>, replies: seq<Reply>, queries: seq<Domain>) {
    function At(d: Domain): (p: Option<Phase>) {
      if d in phases then Some(phases[d]) else None
    }

    function Apply(d: Domain, e: Effect): (s: State) {
      State(Put(phases, d, e.next), replies + e.replies, queries + if e.asksDriver then [d] else [])
    }
  }

  function Put(m: map<Domain, Phase>, d: Domain, p: Option<Phase>): (r: map<Domain, Phase>) {
    if p.Some? then m[d := p.value] else m - {d}
  }

  function CleanAll(m: map<Domain, Phase>, now: Instant): (r: map<Domain, Phase>) {
    map d | d in m && OnClean(Some(m[d]), now).Some? :: OnClean(Some(m[d]), now).value
  }

  function Step(s: State, e: Event): (r: State) {
    match e
    case Request(d, sender) => s.Apply(d, OnRequest(s.At(d), sender))
    case Response(r) => s.Apply(r.domain, OnResponse(s.At(r.domain), r))
    case Expire(d) => s.Apply(d, OnExpire(s.At(d)))
    case Clean(now) => s.(phases := CleanAll(s.phases, now))
  }

  const INITIAL := State(map[], [], [])

  function Run(events: seq<Event>): (s: State) {
    if events == [] then INITIAL else Step(Run(events[..|events| - 1]), events[|events| - 1])
  }

  lemma RunStep(events: seq<Event>, e: Event)
    ensures Run(events + [e]) == Step(Run(events), e)
  {
  }

  // ---------------------------------------------------------------------------
  // Domains do not influence each other

  /** The single-domain automaton: one step, blind to events about other domains. */
  function LocalStep(d: Domain, p: Option<Phase>, e: Event): (r: Option<Phase>) {
    match e
    case Request(x, sender) => if x == d then OnRequest(p, sender).next else p
    case Response(r) => if r.domain == d then OnResponse(p, r).next else p
    case Expire(x) => if x == d then OnExpire(p).next else p
    case Clean(now) => OnClean(p, now)
  }

  function LocalRun(d: Domain, events: seq<Event>): (p: Option<Phase>) {
    if events == [] then None
    else LocalStep(d, LocalRun(d, events[..|events| - 1]), events[|events| - 1])
  }

  /** A run of the whole resolver, seen at one domain, is a run of that domain's own automaton. */
  lemma {:induction false} RunProjects(d: Domain, events: seq<Event>)
    ensures Run(events).At(d) == LocalRun(d, events)
  {
    if events != [] {
      RunProjects(d, events[..|events| - 1]);
    }
  }

  // ---------------------------------------------------------------------------
  // What every reachable phase looks like

  predicate PhaseWellFormed(d: Domain, p: Phase) {
    match p
    case Cached(r) => r.domain == d && r.expire.Some?
    case Stale(r) => r.domain == d && r.vanish.Some?
    case Refreshing(r) => r.domain == d && r.vanish.Some?
    case Pending(_) => true
  }

  predicate Filed(d: Domain, p: Option<Phase>) {
    p.Some? ==> PhaseWellFormed(d, p.value)
  }

  /** The records kept for a domain come from the constructors. */
  predicate Built(p: Option<Phase>) {
    p.Some? && !p.value.Pending? ==> WellBuilt(p.value.record)
  }

  ghost predicate Driven(events: seq<Event>) {
    forall i :: 0 <= i < |events| && events[i].Response? ==> WellBuilt(events[i].record)
  }

  lemma {:induction false} LocalRunFiled(d: Domain, events: seq<Event>)
    ensures Filed(d, LocalRun(d, events))
    ensures Driven(events) ==> Built(LocalRun(d, events))
  {
    if events != [] {
      var prior := events[..|events| - 1];
      LocalRunFiled(d, prior);
      assert Driven(events) ==> Driven(prior);
    }
  }

  /**
    Every record is filed under its own domain with the instant its phase needs;
    and if the drivers build records with the constructors, what is served stale
    is always a successful answer.
   */
  lemma {:induction false} RunWellFormed(d: Domain, events: seq<Event>)
    ensures Filed(d, Run(events).At(d))
    ensures Driven(events) ==> Built(Run(events).At(d))
    ensures Driven(events) && ServesStale(Run(events).At(d)) ==> Run(events).phases[d].record.result.Ok?
  {
    RunProjects(d, events);
    LocalRunFiled(d, events);
  }

  /** The events that end a stale answer: an acceptable response, or cleaning at or past its time. */
  predicate EndsStale(d: Domain, r: Record, e: Event) {
    || (e.Response? && e.record.domain == d && e.record.IsAcceptable())
    || (e.Clean? && (r.vanish.Some? ==> r.vanish.value <= e.now))
  }

  /**
    Nothing else ends it: after any event the very same record is still served stale, if
    and only if the event is not one of these. Another failure answers nobody.
   */
  lemma StaleSurvivesIff(s: State, d: Domain, e: Event)
    requires ServesStale(s.At(d))
    ensures var r, p := s.phases[d].record, Step(s, e).At(d);
            (ServesStale(p) && p.value.record == r) <==> !EndsStale(d, r, e)
    ensures e.Response? && e.record.domain == d && !e.record.IsAcceptable() ==> Step(s, e).replies == s.replies
  {
    if e.Clean? {
      CleanAt(s, e.now, d);
    }
  }

  // ---------------------------------------------------------------------------
  // What an answer is good for

  /** No event in `more` takes a live answer for `d` away: no expiry and no newer response. */
  ghost predicate Undisturbed(d: Domain, more: seq<Event>) {
    forall i :: 0 <= i < |more| ==> more[i] != Expire(d) && (more[i].Response? ==> more[i].record.domain != d)
  }

  function From(s: State, more: seq<Event>): (r: State) {
    if more == [] then s else Step(From(s, more[..|more| - 1]), more[|more| - 1])
  }

  /**
    A stored answer serves: after a response with a lifetime (unless it is a failure that
    must yield to a stale answer), whatever else happens, until that answer expires or is
    replaced every request is answered at once with it, and the driver is not asked again.
   */
  lemma {:induction false} AnswerIsServed(s: State, r: Record, more: seq<Event>, sender: Sender)
    requires r.expire.Some? && (r.IsAcceptable() || !ServesStale(s.At(r.domain)))
    requires Undisturbed(r.domain, more)
    ensures var s' := From(Step(s, Response(r)), more);
            && s'.At(r.domain) == Some(Cached(r))
            && Step(s', Request(r.domain, sender)) == s'.(replies := s'.replies + [Reply(sender, r, Cache)])
    decreases |more|
  {
    if more != [] {
      AnswerIsServed(s, r, more[..|more| - 1], sender);
    }
    var s' := From(Step(s, Response(r)), more);
    assert s'.phases[r.domain := Cached(r)] == s'.phases;
  }

  /**
    A stale answer is served until it vanishes: through any events that do not end it,
    however many refreshes fail, every request is answered at once with it out of the
    stale store; and the driver is asked only if no refresh is under way.
   */
  lemma {:induction false} StaleIsServed(s: State, d: Domain, more: seq<Event>, sender: Sender)
    requires ServesStale(s.At(d))
    requires forall i :: 0 <= i < |more| ==> !EndsStale(d, s.phases[d].record, more[i])
    ensures var r, s' := s.phases[d].record, From(s, more);
            && ServesStale(s'.At(d)) && s'.phases[d].record == r
            && var after := Step(s', Request(d, sender));
               && after.replies == s'.replies + [Reply(sender, r, Trash)]
               && after.At(d) == Some(Refreshing(r))
               && after.queries == s'.queries + if s'.phases[d].Stale? then [d] else []
    decreases |more|
  {
    if more != [] {
      var init := more[..|more| - 1];
      StaleIsServed(s, d, init, sender);
      StaleSurvivesIff(From(s, init), d, more[|more| - 1]);
    }
  }

  /**
    What a live answer leaves when its time is up: a stale answer exactly if it may outlive
    its expiry, and nothing otherwise. Nobody is answered and the driver is not asked.
   */
  lemma ExpiryLaw(s: State, d: Domain)
    requires s.At(d).Some? && s.phases[d].Cached?
    ensures var r, s' := s.phases[d].record, Step(s, Expire(d));
            && s'.At(d) == (if r.vanish.Some? then Some(Stale(r)) else None)
            && s'.replies == s.replies && s'.queries == s.queries
            && forall x :: x != d ==> s'.At(x) == s.At(x)
  {
  }

  /** A record without a lifetime is passed on and not kept: only a live answer survives it. */
  lemma UnkeptLaw(s: State, r: Record)
    requires r.expire.None? && (r.IsAcceptable() || !ServesStale(s.At(r.domain)))
    ensures var p, s' := s.At(r.domain), Step(s, Response(r));
            s'.At(r.domain) == if p.Some? && p.value.Cached? then p else None
  {
  }

  /** A response that is not a failure to be covered by a stale answer. */
  predicate Taken(s: State, r: Record) {
    r.IsAcceptable() || !ServesStale(s.At(r.domain))
  }

  /** A series of replies that tells the newest of `ws` of the query and the others of the cache. */
  ghost predicate Tells(out: seq<Reply>, ws: seq<Sender>, r: Record) {
    && |out| == |ws|
    && (ws != [] ==> out[0] == Reply(ws[|ws| - 1], r, Query))
    && forall i :: 0 <= i < |ws| - 1 ==> out[i + 1] == Reply(ws[i], r, Cache)
  }

  lemma FanOutTells(ws: seq<Sender>, r: Record)
    ensures Tells(FanOut(ws, r), ws, r)
  {
  }

  /**
    How a waiting list is told: the newest waiter first and as the one the query was made
    for, then the others in the order of their requests and as served from the cache.
   */
  lemma NewestGetsQuery(s: State, r: Record)
    requires Taken(s, r)
    ensures s.replies <= Step(s, Response(r)).replies
    ensures var ws, out := Waiters(s.At(r.domain)), Step(s, Response(r)).replies[|s.replies|..];
            && |out| == |ws|
            && (ws != [] ==> out[0] == Reply(ws[|ws| - 1], r, Query))
            && forall i :: 0 <= i < |ws| - 1 ==> out[i + 1] == Reply(ws[i], r, Cache)
  {
    var ws := Waiters(s.At(r.domain));
    FanOutTells(ws, r);
    assert Step(s, Response(r)).replies == s.replies + FanOut(ws, r);
    assert (s.replies + FanOut(ws, r))[|s.replies|..] == FanOut(ws, r);
  }

  /** The senders that ask for a domain in a stretch of events, in order. */
  function Askers(d: Domain, events: seq<Event>): (ss: seq<Sender>) {
    if events == [] then []
    else
      var last := events[|events| - 1];
      Askers(d, events[..|events| - 1]) + if last.Request? && last.domain == d then [last.sender] else []
  }

  lemma AskersMore(d: Domain, events: seq<Event>, k: nat)
    requires events != [] && k < |events|
    ensures var n, last := |events| - 1, events[|events| - 1];
            Askers(d, events[k..])
            == Askers(d, events[..n][k..]) + if last.Request? && last.domain == d then [last.sender] else []
  {
    var n := |events| - 1;
    assert events[k..][..n - k] == events[..n][k..];
  }

  /** A waiting list only grows at its end, until a response closes it. */
  lemma WaitersStep(d: Domain, p: Option<Phase>, e: Event)
    ensures var p' := LocalStep(d, p, e);
            Waiters(p')
            == if p'.Some? && p'.value.Pending? && !(e.Response? && e.record.domain == d)
               then Waiters(p) + if e.Request? && e.domain == d then [e.sender] else []
               else []
  {
  }

  /** No response for the domain is among the events from `k` on. */
  ghost predicate Unanswered(d: Domain, events: seq<Event>, k: nat) {
    k <= |events| && forall i :: k <= i < |events| && events[i].Response? ==> events[i].record.domain != d
  }

  lemma UnansweredMore(d: Domain, events: seq<Event>, k: nat)
    requires events != [] && Unanswered(d, events[..|events| - 1], k)
    requires var last := events[|events| - 1]; last.Response? ==> last.record.domain != d
    ensures Unanswered(d, events, k)
  {
    var init := events[..|events| - 1];
    forall i | k <= i < |events| && events[i].Response? ensures events[i].record.domain != d {
      if i < |init| { assert init[i] == events[i]; }
    }
  }

  lemma {:induction false} LocalWaitersInOrder(d: Domain, events: seq<Event>) returns (k: nat)
    ensures Unanswered(d, events, k) && Waiters(LocalRun(d, events)) == Askers(d, events[k..])
    decreases |events|
  {
    if events == [] {
      k := 0;
    } else {
      var n := |events| - 1;
      var p, p' := LocalRun(d, events[..n]), LocalRun(d, events);
      WaitersStep(d, p, events[n]);
      if p'.Some? && p'.value.Pending? && !(events[n].Response? && events[n].record.domain == d) {
        k := LocalWaitersInOrder(d, events[..n]);
        UnansweredMore(d, events, k);
        AskersMore(d, events, k);
      } else {
        k := |events|;
        assert Askers(d, events[k..]) == [];
      }
    }
  }

  /**
    A waiting list is first come, first listed: over every run it holds exactly the senders
    that asked since some moment, in the order of their requests, with no response since.
   */
  lemma {:induction false} WaitersInOrder(d: Domain, events: seq<Event>) returns (k: nat)
    ensures Unanswered(d, events, k) && Waiters(Run(events).At(d)) == Askers(d, events[k..])
  {
    RunProjects(d, events);
    k := LocalWaitersInOrder(d, events);
  }

  /** Whoever waits for a domain is told the very record that ends the wait. */
  lemma WaitersGetTheAnswer(s: State, r: Record, x: Sender) returns (i: nat)
    requires x in Waiters(s.At(r.domain))
    ensures |s.replies| <= i < |Step(s, Response(r)).replies|
    ensures Step(s, Response(r)).replies[i].sender == x && Step(s, Response(r)).replies[i].record == r
  {
    var ws := Waiters(s.At(r.domain));
    var n := |ws| - 1;
    var k :| 0 <= k < |ws| && ws[k] == x;
    i := |s.replies| + if k == n then 0 else k + 1;
    assert k != n ==> FanOut(ws, r)[k + 1] == RepliesTo(ws[..n], r, Cache)[k];
  }

  // ---------------------------------------------------------------------------
  // Every request is answered once or still waiting

  function Senders(replies: seq<Reply>): (ss: seq<Sender>)
    ensures |ss| == |replies|
  {
    seq(|replies|, i requires 0 <= i < |replies| => replies[i].sender)
  }

  function Requested(events: seq<Event>): (ss: seq<Sender>) {
    if events == [] then []
    else
      var last := events[|events| - 1];
      Requested(events[..|events| - 1]) + if last.Request? then [last.sender] else []
  }

  /** The lists that hold at least one waiter. */
  ghost function Held(m: map<Domain, Phase>): (h: map<Domain, seq<Sender>>) {
    map d | d in m && Waiters(Some(m[d])) != [] :: Waiters(Some(m[d]))
  }

  ghost function Waiting(m: map<Domain, Phase>): (b: multiset<Sender>) {
    Bag(Held(m))
  }

  lemma SendersAppend(a: seq<Reply>, b: seq<Reply>)
    ensures Senders(a + b) == Senders(a) + Senders(b)
  {
  }

  lemma Rotated(ws: seq<Sender>, w: Sender)
    ensures multiset([w] + ws) == multiset(ws + [w])
  {
  }

  lemma SendersOfFanOutAre(ws: seq<Sender>, r: Record)
    requires ws != []
    ensures Senders(FanOut(ws, r)) == [ws[|ws| - 1]] + ws[..|ws| - 1]
  {
  }

  /** Answering a waiting list answers each of its members as often as it waits there. */
  lemma SendersOfFanOut(ws: seq<Sender>, r: Record, x: Sender)
    ensures multiset(Senders(FanOut(ws, r)))[x] == multiset(ws)[x]
  {
    if ws != [] {
      var n := |ws| - 1;
      SendersOfFanOutAre(ws, r);
      Rotated(ws[..n], ws[n]);
      assert ws == ws[..n] + [ws[n]];
    }
  }

  lemma WaitingAt(m: map<Domain, Phase>, d: Domain, x: Sender)
    ensures Waiting(m)[x]
            == multiset(Waiters(if d in m then Some(m[d]) else None))[x] + Bag(Held(m) - {d})[x]
  {
    BagAt(Held(m), d, x);
  }

  lemma HeldElsewhere(m: map<Domain, Phase>, d: Domain, p: Option<Phase>)
    ensures Held(Put(m, d, p)) - {d} == Held(m) - {d}
  {
  }

  /** Changing one domain's phase exchanges that domain's waiters, and no others. */
  lemma PutBalance(m: map<Domain, Phase>, d: Domain, p: Option<Phase>, x: Sender)
    ensures Waiting(Put(m, d, p))[x] + multiset(Waiters(if d in m then Some(m[d]) else None))[x]
            == Waiting(m)[x] + multiset(Waiters(p))[x]
  {
    var m' := Put(m, d, p);
    WaitingAt(m, d, x);
    WaitingAt(m', d, x);
    HeldElsewhere(m, d, p);
    assert (if d in m' then Some(m'[d]) else None) == p;
  }

  /** One effect: what leaves the waiting lists or arrives is what is answered or stays. */
  lemma ApplyBalance(s: State, d: Domain, e: Effect, x: Sender)
    ensures multiset(Senders(s.Apply(d, e).replies))[x] + Waiting(s.Apply(d, e).phases)[x]
              + multiset(Waiters(s.At(d)))[x]
            == multiset(Senders(s.replies))[x] + multiset(Senders(e.replies))[x]
              + Waiting(s.phases)[x] + multiset(Waiters(e.next))[x]
  {
    SendersAppend(s.replies, e.replies);
    PutBalance(s.phases, d, e.next, x);
  }

  lemma CleanKeepsHeld(m: map<Domain, Phase>, now: Instant)
    ensures Held(CleanAll(m, now)) == Held(m)
  {
  }

  lemma RequestBalance(p: Option<Phase>, sender: Sender, x: Sender)
    ensures multiset(Senders(OnRequest(p, sender).replies))[x]
              + multiset(Waiters(OnRequest(p, sender).next))[x]
            == multiset(Waiters(p))[x] + multiset([sender])[x]
  {
    var e := OnRequest(p, sender);
    assert e.replies != [] ==> Senders(e.replies) == [sender];
  }

  lemma ResponseBalance(p: Option<Phase>, r: Record, x: Sender)
    ensures multiset(Senders(OnResponse(p, r).replies))[x]
              + multiset(Waiters(OnResponse(p, r).next))[x]
            == multiset(Waiters(p))[x]
  {
    SendersOfFanOut(Waiters(p), r, x);
  }

  lemma {:induction false} StepBalance(s: State, e: Event, x: Sender)
    ensures multiset(Senders(Step(s, e).replies))[x] + Waiting(Step(s, e).phases)[x]
            == multiset(Senders(s.replies))[x] + Waiting(s.phases)[x]
              + if e.Request? && e.sender == x then 1 else 0
  {
    match e {
      case Request(d, sender) =>
        ApplyBalance(s, d, OnRequest(s.At(d), sender), x);
        RequestBalance(s.At(d), sender, x);
      case Response(r) =>
        ApplyBalance(s, r.domain, OnResponse(s.At(r.domain), r), x);
        ResponseBalance(s.At(r.domain), r, x);
      case Expire(d) =>
        ApplyBalance(s, d, OnExpire(s.At(d)), x);
      case Clean(now) =>
        CleanKeepsHeld(s.phases, now);
    }
  }

  lemma {:induction false} ConservationOf(events: seq<Event>, x: Sender)
    ensures multiset(Requested(events))[x]
            == multiset(Senders(Run(events).replies))[x] + Waiting(Run(events).phases)[x]
  {
    if events == [] {
      assert Held(INITIAL.phases) == map[];
    } else {
      ConservationOf(events[..|events| - 1], x);
      StepBalance(Run(events[..|events| - 1]), events[|events| - 1], x);
    }
  }

  /** Over every run, the senders that made requests are exactly those answered plus those waiting. */
  lemma {:induction false} Conservation(events: seq<Event>)
    ensures multiset(Requested(events)) == multiset(Senders(Run(events).replies)) + Waiting(Run(events).phases)
  {
    forall x: Sender
      ensures multiset(Requested(events))[x]
              == (multiset(Senders(Run(events).replies)) + Waiting(Run(events).phases))[x]
    {
      ConservationOf(events, x);
    }
  }

  /**
    Exactly once: when no sender is used twice, each requester has one reply and is
    waiting nowhere, or has no reply and waits once, on exactly one domain's list.
   */
  lemma ExactlyOnce(events: seq<Event>, x: Sender) returns (heldBy: Option<Domain>)
    requires multiset(Requested(events))[x] == 1
    ensures heldBy.None? ==> multiset(Senders(Run(events).replies))[x] == 1 && Waiting(Run(events).phases)[x] == 0
    ensures heldBy.Some? ==>
              && multiset(Senders(Run(events).replies))[x] == 0
              && var held := Held(Run(events).phases);
                 && heldBy.value in held
                 && multiset(held[heldBy.value])[x] == 1
                 && forall d :: d in held && x in held[d] ==> d == heldBy.value
  {
    ConservationOf(events, x);
    if Waiting(Run(events).phases)[x] == 0 {
      heldBy := None;
    } else {
      var d := BagOnce(Held(Run(events).phases), x);
      heldBy := Some(d);
    }
  }

  // ---------------------------------------------------------------------------
  // Counters

  function Count(replies: seq<Reply>, source: Source): (n: nat) {
    if replies == [] then 0
    else Count(replies[..|replies| - 1], source) + if replies[|replies| - 1].source == source then 1 else 0
  }

  lemma {:induction false} CountAppend(a: seq<Reply>, b: seq<Reply>, source: Source)
    ensures Count(a + b, source) == Count(a, source) + Count(b, source)
  {
    if b == [] {
      assert a + b == a;
    } else {
      CountAppend(a, b[..|b| - 1], source);
      assert (a + b)[..|a + b| - 1] == a + b[..|b| - 1];
    }
  }

  lemma {:induction false} CountUniform(replies: seq<Reply>, given: Source, source: Source)
    requires forall i :: 0 <= i < |replies| ==> replies[i].source == given
    ensures Count(replies, source) == if given == source then |replies| else 0
  {
    if replies != [] {
      CountUniform(replies[..|replies| - 1], given, source);
    }
  }

  lemma {:induction false} CountAll(replies: seq<Reply>)
    ensures Count(replies, Cache) + Count(replies, Trash) + Count(replies, Query) == |replies|
  {
    if replies != [] {
      CountAll(replies[..|replies| - 1]);
    }
  }

  lemma CountFanOut(ws: seq<Sender>, r: Record, source: Source)
    ensures Count(FanOut(ws, r), source)
            == match source
               case Query => if ws == [] then 0 else 1
               case Cache => if ws == [] then 0 else |ws| - 1
               case Trash => 0
  {
    if ws != [] {
      var n := |ws| - 1;
      var first, rest := [Reply(ws[n], r, Query)], RepliesTo(ws[..n], r, Cache);
      CountAppend(first, rest, source);
      CountUniform(first, Query, source);
      CountUniform(rest, Cache, source);
    }
  }

  /** Requests = cache hits + stale hits + query answers + requests still waiting. */
  lemma {:induction false} CounterLaw(events: seq<Event>)
    ensures |Requested(events)|
            == Count(Run(events).replies, Cache) + Count(Run(events).replies, Trash)
               + Count(Run(events).replies, Query) + |Waiting(Run(events).phases)|
  {
    Conservation(events);
    CountAll(Run(events).replies);
    assert |multiset(Requested(events))| == |Requested(events)|;
    assert |multiset(Senders(Run(events).replies))| == |Run(events).replies|;
  }

  function FruitfulResponses(events: seq<Event>): (n: nat) {
    if events == [] then 0
    else
      var prior, last := events[..|events| - 1], events[|events| - 1];
      FruitfulResponses(prior)
        + if last.Response? && Waiters(Run(prior).At(last.record.domain)) != [] then 1 else 0
  }

  lemma RequestQueries(p: Option<Phase>, sender: Sender)
    ensures Count(OnRequest(p, sender).replies, Query) == 0
  {
    var out := OnRequest(p, sender).replies;
    if out != [] {
      CountUniform(out, out[0].source, Query);
    }
  }

  lemma ResponseQueries(p: Option<Phase>, r: Record)
    ensures Count(OnResponse(p, r).replies, Query) == if Waiters(p) != [] then 1 else 0
  {
    CountFanOut(Waiters(p), r, Query);
  }

  lemma {:induction false} QueryRepliesStep(s: State, e: Event)
    ensures Count(Step(s, e).replies, Query)
            == Count(s.replies, Query) + if e.Response? && Waiters(s.At(e.record.domain)) != [] then 1 else 0
  {
    match e {
      case Request(d, sender) =>
        CountAppend(s.replies, OnRequest(s.At(d), sender).replies, Query);
        RequestQueries(s.At(d), sender);
      case Response(r) =>
        CountAppend(s.replies, OnResponse(s.At(r.domain), r).replies, Query);
        ResponseQueries(s.At(r.domain), r);
      case Expire(d) => assert s.replies + [] == s.replies;
      case Clean(now) =>
    }
  }

  /** There is one query-sourced reply for each response that finds somebody waiting, and no other. */
  lemma {:induction false} QueryRepliesPerResponse(events: seq<Event>)
    ensures Count(Run(events).replies, Query) == FruitfulResponses(events)
  {
    if events != [] {
      QueryRepliesPerResponse(events[..|events| - 1]);
      QueryRepliesStep(Run(events[..|events| - 1]), events[|events| - 1]);
    }
  }

  /** No response is ever answered out of the stale store: that fan-out has nobody to serve. */
  lemma ResponsesNeverServeStale(s: State, r: Record)
    ensures Count(Step(s, Response(r)).replies, Trash) == Count(s.replies, Trash)
  {
    CountAppend(s.replies, OnResponse(s.At(r.domain), r).replies, Trash);
    CountFanOut(Waiters(s.At(r.domain)), r, Trash);
  }

  // ---------------------------------------------------------------------------
  // Single flight

  function Answered(events: seq<Event>): (ds: seq<Domain>) {
    if events == [] then []
    else
      var last := events[|events| - 1];
      Answered(events[..|events| - 1]) + if last.Response? then [last.record.domain] else []
  }

  /** The driver answers queries it was asked, each at most once. */
  ghost predicate Solicited(events: seq<Event>) {
    events == [] ||
    var prior, last := events[..|events| - 1], events[|events| - 1];
    && Solicited(prior)
    && (last.Response? ==>
          multiset(Answered(prior))[last.record.domain] < multiset(Run(prior).queries)[last.record.domain])
  }

  ghost function Flying(s: State): (ds: set<Domain>) {
    set d | d in s.phases && InFlight(s.At(d))
  }

  function Flag(b: bool): (n: nat) { if b then 1 else 0 }

  lemma ApplyFlight(s: State, x: Domain, e: Effect, d: Domain)
    ensures multiset(s.Apply(x, e).queries)[d] == multiset(s.queries)[d] + Flag(e.asksDriver && x == d)
    ensures s.Apply(x, e).At(d) == if x == d then e.next else s.At(d)
  {
  }

  lemma CleanAt(s: State, now: Instant, d: Domain)
    ensures Step(s, Clean(now)).At(d) == OnClean(s.At(d), now)
    ensures InFlight(OnClean(s.At(d), now)) == InFlight(s.At(d))
  {
  }

  /** A domain is asked about exactly when it is put in flight; a response lands it. */
  lemma EffectFlight(p: Option<Phase>)
    ensures forall sender :: var e := OnRequest(p, sender);
              Flag(InFlight(p)) + Flag(e.asksDriver) == Flag(InFlight(e.next))
    ensures forall r :: var e := OnResponse(p, r); !e.asksDriver && !InFlight(e.next)
    ensures var e := OnExpire(p); !e.asksDriver && InFlight(e.next) == InFlight(p)
  {
  }

  /** Queries asked and domains in flight move together, except that a response lands a domain. */
  lemma {:induction false} FlightStep(s: State, e: Event, d: Domain)
    ensures multiset(Step(s, e).queries)[d] + Flag(InFlight(s.At(d)))
            == multiset(s.queries)[d] + Flag(InFlight(Step(s, e).At(d)))
               + Flag(e.Response? && e.record.domain == d && InFlight(s.At(d)))
    ensures e.Response? && e.record.domain == d ==> !InFlight(Step(s, e).At(d))
  {
    match e {
      case Request(x, sender) =>
        EffectFlight(s.At(x));
        ApplyFlight(s, x, OnRequest(s.At(x), sender), d);
      case Response(r) =>
        EffectFlight(s.At(r.domain));
        ApplyFlight(s, r.domain, OnResponse(s.At(r.domain), r), d);
      case Expire(x) =>
        EffectFlight(s.At(x));
        ApplyFlight(s, x, OnExpire(s.At(x)), d);
      case Clean(now) =>
        CleanAt(s, now, d);
    }
  }

  lemma {:induction false} SingleFlightAt(events: seq<Event>, d: Domain)
    requires Solicited(events)
    ensures multiset(Run(events).queries)[d]
            == multiset(Answered(events))[d] + if InFlight(Run(events).At(d)) then 1 else 0
  {
    if events != [] {
      var prior, last := events[..|events| - 1], events[|events| - 1];
      SingleFlightAt(prior, d);
      FlightStep(Run(prior), last, d);
    }
  }

  /**
    With such a driver, the domains in flight are exactly the unanswered queries,
    each asked once; so queries asked = responses received + domains in flight.
   */
  lemma {:induction false} SingleFlight(events: seq<Event>)
    requires Solicited(events)
    ensures multiset(Run(events).queries) == multiset(Answered(events)) + multiset(Flying(Run(events)))
    ensures |Run(events).queries| == |Answered(events)| + |Flying(Run(events))|
  {
    forall d: Domain
      ensures multiset(Run(events).queries)[d]
              == (multiset(Answered(events)) + multiset(Flying(Run(events))))[d]
    {
      SingleFlightAt(events, d);
    }
    assert multiset(Run(events).queries) == multiset(Answered(events)) + multiset(Flying(Run(events)));
    assert |multiset(Run(events).queries)| == |Run(events).queries|;
    assert |multiset(Answered(events))| == |Answered(events)|;
  }
}

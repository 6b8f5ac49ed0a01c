/**
  One address family of the resolver runtime: a cache, a list of waiters per
  domain being resolved, a store of stale answers, and a timer queue. The original
  keeps two copies of all of this, one for A and one for AAAA records.

  Each handler is proved to do to the maps what `ResolverAutomaton` does to phases.
 */
module ResolverRuntimes {
  import opened Options
  import opened Bags
  import opened DelayQueues
  import opened ResolverRecords
  import opened ResolverAutomaton

  datatype CachedRecord = CachedRecord(inner: Record, expireAt: Instant, expireKey: Option<nat>)

  datatype TrashedRecord = TrashedRecord(inner: Record, vanishAt: Instant)

  datatype Maps = Maps(
    cache: map<Domain, CachedRecord>,
    doing: map<Domain, seq<Sender>>,
    trash: map<Domain, TrashedRecord>)

  ghost function PhaseOf(m: Maps, d: Domain): (p: Option<Phase>) {
    if d in m.cache then Some(Cached(m.cache[d].inner))
    else if d in m.trash then
      if d in m.doing then Some(Refreshing(m.trash[d].inner)) else Some(Stale(m.trash[d].inner))
    else if d in m.doing then Some(Pending(m.doing[d]))
    else None
  }

  ghost function PhasesOf(m: Maps): (phases: map<Domain, Phase>) {
    map d | d in m.cache.Keys + m.trash.Keys + m.doing.Keys :: PhaseOf(m, d).value
  }

  lemma PhaseAt(m: Maps, d: Domain)
    ensures d in PhasesOf(m) <==> PhaseOf(m, d).Some?
    ensures d in PhasesOf(m) ==> PhasesOf(m)[d] == PhaseOf(m, d).value
  {
  }

  /**
    The cross-map invariant no single handler states: a live answer excludes a stale
    one and a waiting list, a domain served stale has nobody waiting, and every record
    is filed under its own domain with its own instants.
   */
  ghost predicate ExclusiveAt(m: Maps, d: Domain) {
    && (d in m.cache ==>
          && d !in m.trash
          && d !in m.doing
          && m.cache[d].inner.domain == d
          && m.cache[d].inner.expire == Some(m.cache[d].expireAt)
          && m.cache[d].expireKey.Some?)
    && (d in m.trash ==>
          && m.trash[d].inner.domain == d
          && m.trash[d].inner.vanish == Some(m.trash[d].vanishAt)
          && (d in m.doing ==> m.doing[d] == []))
  }

  ghost predicate Exclusive(m: Maps) {
    forall d :: ExclusiveAt(m, d)
  }

  ghost predicate HasTimer(cache: map<Domain, CachedRecord>, timers: map<nat, Timer<Domain>>, d: Domain) {
    d in cache ==>
      && cache[d].expireKey.Some?
      && cache[d].expireKey.value in timers
      && timers[cache[d].expireKey.value] == Timer(cache[d].expireAt, d)
  }

  ghost predicate HasEntry(cache: map<Domain, CachedRecord>, timers: map<nat, Timer<Domain>>, k: nat) {
    k in timers ==> timers[k].item in cache && cache[timers[k].item].expireKey == Some(k)
  }

  /**
    Timers and cache entries match one to one with equal deadlines, except that the
    domains in `popped` have had their timer taken out already.
   */
  ghost predicate Indexed(cache: map<Domain, CachedRecord>, timers: map<nat, Timer<Domain>>, popped: set<Domain>) {
    && (forall d :: d !in popped ==> HasTimer(cache, timers, d))
    && (forall k :: HasEntry(cache, timers, k))
    && (forall k :: k in timers ==> timers[k].item !in popped)
  }

  ghost predicate SameAt(m: Maps, m': Maps, d: Domain) {
    && (d in m.cache <==> d in m'.cache) && (d in m.cache ==> m.cache[d] == m'.cache[d])
    && (d in m.doing <==> d in m'.doing) && (d in m.doing ==> m.doing[d] == m'.doing[d])
    && (d in m.trash <==> d in m'.trash) && (d in m.trash ==> m.trash[d] == m'.trash[d])
  }

  ghost predicate SameElsewhere(m: Maps, m': Maps, d: Domain) {
    forall x :: x != d ==> SameAt(m, m', x)
  }

  /** Changing the maps at one domain changes the phase of that domain only. */
  lemma LocalChange(m: Maps, m': Maps, d: Domain)
    requires Exclusive(m) && SameElsewhere(m, m', d) && ExclusiveAt(m', d)
    ensures Exclusive(m')
    ensures PhasesOf(m') == Put(PhasesOf(m), d, PhaseOf(m', d))
  {
    forall x ensures ExclusiveAt(m', x) {
      assert x != d ==> SameAt(m, m', x);
      assert ExclusiveAt(m, x);
    }
    var before, after := PhasesOf(m), Put(PhasesOf(m), d, PhaseOf(m', d));
    forall x
      ensures x in PhasesOf(m') <==> x in after
      ensures x in after ==> PhasesOf(m')[x] == after[x]
    {
      PhaseAt(m, x);
      PhaseAt(m', x);
      assert x != d ==> SameAt(m, m', x);
    }
  }

  /** A cache entry and its timer, stored together, keep the index. */
  lemma IndexedPut(cache: map<Domain, CachedRecord>, timers: map<nat, Timer<Domain>>, c: CachedRecord, d: Domain)
    requires Indexed(cache, timers, {})
    requires c.expireKey.Some?
    requires if d in cache then c.expireKey == cache[d].expireKey else c.expireKey.value !in timers
    ensures Indexed(cache[d := c], timers[c.expireKey.value := Timer(c.expireAt, d)], {})
  {
    var cache', timers' := cache[d := c], timers[c.expireKey.value := Timer(c.expireAt, d)];
    forall x ensures HasTimer(cache', timers', x) {
      assert HasTimer(cache, timers, x) && HasTimer(cache, timers, d);
    }
    forall k ensures HasEntry(cache', timers', k) {
      assert HasEntry(cache, timers, k) && HasTimer(cache, timers, d);
    }
  }

  /** Taking out a due timer and then its cache entry keeps the index. */
  lemma IndexedPop(cache: map<Domain, CachedRecord>, timers: map<nat, Timer<Domain>>, k: nat)
    requires Indexed(cache, timers, {}) && k in timers
    ensures Indexed(cache, timers - {k}, {timers[k].item})
  {
    var timers', d := timers - {k}, timers[k].item;
    forall x | x != d ensures HasTimer(cache, timers', x) {
      assert HasTimer(cache, timers, x) && HasEntry(cache, timers, k);
    }
    forall j ensures HasEntry(cache, timers', j) && (j in timers' ==> timers'[j].item != d) {
      assert HasEntry(cache, timers, j) && HasEntry(cache, timers, k);
    }
  }

  lemma IndexedDrop(cache: map<Domain, CachedRecord>, timers: map<nat, Timer<Domain>>, d: Domain)
    requires Indexed(cache, timers, {d})
    ensures Indexed(cache - {d}, timers, {})
  {
    forall x ensures HasTimer(cache - {d}, timers, x) {
      assert x != d ==> HasTimer(cache, timers, x);
    }
    forall k ensures HasEntry(cache - {d}, timers, k) {
      assert HasEntry(cache, timers, k);
    }
  }

  // ---------------------------------------------------------------------------
  // Each handler's change to the maps is one step of the automaton

  datatype Counters = Counters(total: nat, cached: nat, driver: nat, trashed: nat)

  datatype Snapshot = Snapshot(maps: Maps, counters: Counters, replies: seq<Reply>, queries: seq<Domain>)

  ghost function View(x: Snapshot): (s: State) {
    State(PhasesOf(x.maps), x.replies, x.queries)
  }

  ghost predicate CountersAgree(x: Snapshot, events: seq<Event>) {
    && x.counters.total == |Requested(events)|
    && x.counters.cached == Count(x.replies, Cache)
    && x.counters.trashed == Count(x.replies, Trash)
    && x.counters.driver == |x.queries|
  }

  /** The maps, counters and outputs are what the automaton reaches on these events. */
  ghost predicate Refines(x: Snapshot, events: seq<Event>) {
    && Exclusive(x.maps)
    && View(x) == Run(events)
    && CountersAgree(x, events)
  }

  /** Bookkeeping common to all steps: replies are counted by source, requests in total. */
  lemma CountersStep(x: Snapshot, x': Snapshot, events: seq<Event>, e: Event, out: seq<Reply>)
    requires CountersAgree(x, events)
    requires x'.replies == x.replies + out
    requires x'.counters.total == x.counters.total + if e.Request? then 1 else 0
    requires x'.counters.cached == x.counters.cached + Count(out, Cache)
    requires x'.counters.trashed == x.counters.trashed + Count(out, Trash)
    requires x'.counters.driver - x.counters.driver == |x'.queries| - |x.queries|
    ensures CountersAgree(x', events + [e])
  {
    CountAppend(x.replies, out, Cache);
    CountAppend(x.replies, out, Trash);
    assert (events + [e])[..|events|] == events;
  }

  /** How an expiry changes the maps. */
  ghost predicate Expired(m: Maps, m': Maps, d: Domain) {
    && m'.doing == m.doing && m'.cache == m.cache - {d}
    && m'.trash == if d in m.cache && m.cache[d].inner.vanish.Some?
                   then m.trash[d := TrashedRecord(m.cache[d].inner, m.cache[d].inner.vanish.value)]
                   else m.trash
  }

  lemma ExpireView(x: Snapshot, x': Snapshot, d: Domain)
    requires Exclusive(x.maps) && Expired(x.maps, x'.maps, d)
    requires x' == x.(maps := x'.maps)
    ensures Exclusive(x'.maps)
    ensures View(x') == Step(View(x), Expire(d))
  {
    assert ExclusiveAt(x.maps, d);
    PhaseAt(x.maps, d);
    LocalChange(x.maps, x'.maps, d);
    assert x.replies + [] == x.replies;
  }

  lemma ExpireRefines(x: Snapshot, x': Snapshot, events: seq<Event>, d: Domain)
    requires Refines(x, events) && Expired(x.maps, x'.maps, d)
    requires x' == x.(maps := x'.maps)
    ensures Refines(x', events + [Expire(d)])
    ensures View(x') == Step(View(x), Expire(d))
  {
    ExpireView(x, x', d);
    RunStep(events, Expire(d));
    assert x.replies + [] == x.replies;
    CountersStep(x, x', events, Expire(d), []);
  }

  /** How a request changes the maps and outputs, branch by branch. */
  ghost predicate Served(x: Snapshot, x': Snapshot, d: Domain, sender: Sender) {
    var m := x.maps;
    && x'.maps == m.(doing := x'.maps.doing)
    && if d in m.cache then
         && x'.maps == m
         && x'.replies == x.replies + [Reply(sender, m.cache[d].inner, Cache)]
         && x'.queries == x.queries
       else if d in m.trash then
         && x'.replies == x.replies + [Reply(sender, m.trash[d].inner, Trash)]
         && if d in m.doing then x'.maps == m && x'.queries == x.queries
            else x'.maps.doing == m.doing[d := []] && x'.queries == x.queries + [d]
       else
         && x'.replies == x.replies
         && if d in m.doing then x'.maps.doing == m.doing[d := m.doing[d] + [sender]] && x'.queries == x.queries
            else x'.maps.doing == m.doing[d := [sender]] && x'.queries == x.queries + [d]
  }

  /** One request counted, as what it was answered from, and each query that it caused. */
  ghost function RequestCounted(x: Snapshot, x': Snapshot, d: Domain): (c: Counters)
    requires x.queries <= x'.queries
  {
    Counters(
      x.counters.total + 1,
      x.counters.cached + if d in x.maps.cache then 1 else 0,
      x.counters.driver + |x'.queries| - |x.queries|,
      x.counters.trashed + if d !in x.maps.cache && d in x.maps.trash then 1 else 0)
  }

  lemma RequestView(x: Snapshot, x': Snapshot, d: Domain, sender: Sender)
    requires Exclusive(x.maps) && Served(x, x', d, sender)
    ensures Exclusive(x'.maps)
    ensures View(x') == Step(View(x), Request(d, sender))
  {
    assert ExclusiveAt(x.maps, d);
    PhaseAt(x.maps, d);
    LocalChange(x.maps, x'.maps, d);
  }

  /** A failure that must not displace the stale answer: only the waiting list is closed, and it is empty. */
  lemma StaleResponseRefines(x: Snapshot, x': Snapshot, events: seq<Event>, r: Record)
    requires Refines(x, events)
    requires !r.IsAcceptable() && r.domain in x.maps.trash
    requires x' == x.(maps := x.maps.(doing := x.maps.doing - {r.domain}))
    ensures Refines(x', events + [Response(r)])
    ensures View(x') == Step(View(x), Response(r))
  {
    assert ExclusiveAt(x.maps, r.domain);
    PhaseAt(x.maps, r.domain);
    LocalChange(x.maps, x'.maps, r.domain);
    RunStep(events, Response(r));
    assert x.replies + [] == x.replies;
    CountersStep(x, x', events, Response(r), []);
  }

  /** Any other response: the stale answer and the waiting list go, the new answer is stored. */
  ghost predicate Stored(m: Maps, m': Maps, r: Record) {
    && m'.trash == m.trash - {r.domain} && m'.doing == m.doing - {r.domain}
    && if r.expire.Some? then
         && r.domain in m'.cache
         && m'.cache[r.domain].expireKey.Some?
         && m'.cache == m.cache[r.domain := CachedRecord(r, r.expire.value, m'.cache[r.domain].expireKey)]
       else m'.cache == m.cache
  }

  /** And the waiters are told and counted. */
  ghost predicate Accepted(x: Snapshot, x': Snapshot, r: Record) {
    var out := FanOut(ListOf(x.maps.doing, r.domain), r);
    && Stored(x.maps, x'.maps, r)
    && x'.queries == x.queries
    && x'.replies == x.replies + out
    && x'.counters == x.counters.(cached := x.counters.cached + Count(out, Cache))
  }

  lemma ResponseView(x: Snapshot, x': Snapshot, r: Record)
    requires Exclusive(x.maps) && Stored(x.maps, x'.maps, r)
    requires r.IsAcceptable() || r.domain !in x.maps.trash
    requires x'.queries == x.queries
    requires x'.replies == x.replies + FanOut(ListOf(x.maps.doing, r.domain), r)
    ensures Exclusive(x'.maps)
    ensures View(x') == Step(View(x), Response(r))
  {
    assert ExclusiveAt(x.maps, r.domain);
    PhaseAt(x.maps, r.domain);
    LocalChange(x.maps, x'.maps, r.domain);
  }

  lemma ResponseRefines(x: Snapshot, x': Snapshot, events: seq<Event>, r: Record)
    requires Refines(x, events)
    requires r.IsAcceptable() || r.domain !in x.maps.trash
    requires Accepted(x, x', r)
    ensures Refines(x', events + [Response(r)])
    ensures View(x') == Step(View(x), Response(r))
  {
    var senders := ListOf(x.maps.doing, r.domain);
    ResponseView(x, x', r);
    CountFanOut(senders, r, Trash);
    CountersStep(x, x', events, Response(r), FanOut(senders, r));
    RunStep(events, Response(r));
  }

  lemma {:induction false} RequestRefines(x: Snapshot, x': Snapshot, events: seq<Event>, d: Domain, sender: Sender)
    requires Refines(x, events)
    requires Served(x, x', d, sender)
    requires x'.counters == RequestCounted(x, x', d)
    ensures Refines(x', events + [Request(d, sender)])
    ensures View(x') == Step(View(x), Request(d, sender))
  {
    RequestView(x, x', d, sender);
    CountersStep(x, x', events, Request(d, sender), x'.replies[|x.replies|..]);
    RunStep(events, Request(d, sender));
  }

  function ListOf(doing: map<Domain, seq<Sender>>, d: Domain): (ws: seq<Sender>) {
    if d in doing then doing[d] else []
  }

  function Cleaned(trash: map<Domain, TrashedRecord>, now: Instant): (r: map<Domain, TrashedRecord>) {
    map d | d in trash && trash[d].vanishAt > now :: trash[d]
  }

  lemma CleanView(m: Maps, m': Maps, now: Instant)
    requires Exclusive(m) && m' == m.(trash := Cleaned(m.trash, now))
    ensures Exclusive(m') && PhasesOf(m') == CleanAll(PhasesOf(m), now)
  {
    forall d ensures ExclusiveAt(m', d) {
      assert ExclusiveAt(m, d);
    }
    var after := CleanAll(PhasesOf(m), now);
    forall d
      ensures d in PhasesOf(m') <==> d in after
      ensures d in after ==> PhasesOf(m')[d] == after[d]
    {
      assert ExclusiveAt(m, d);
      PhaseAt(m, d);
      PhaseAt(m', d);
    }
  }

  lemma CleanRefines(x: Snapshot, x': Snapshot, events: seq<Event>, now: Instant)
    requires Refines(x, events)
    requires x' == x.(maps := x.maps.(trash := Cleaned(x.maps.trash, now)))
    ensures Refines(x', events + [Clean(now)])
    ensures View(x') == Step(View(x), Clean(now))
  {
    CleanView(x.maps, x'.maps, now);
    RunStep(events, Clean(now));
    assert x.replies + [] == x.replies;
    CountersStep(x, x', events, Clean(now), []);
  }

  // ---------------------------------------------------------------------------
  // What the runs of the automaton mean for the maps

  lemma WaitingIsDoing(m: Maps)
    requires Exclusive(m)
    ensures Waiting(PhasesOf(m)) == Bag(m.doing)
  {
    var h := Held(PhasesOf(m));
    forall d
      ensures d in h <==> d in NonEmpty(m.doing)
      ensures d in h ==> h[d] == m.doing[d]
    {
      PhaseAt(m, d);
      assert ExclusiveAt(m, d);
    }
    assert h == NonEmpty(m.doing);
    BagNonEmpty(m.doing);
  }

  lemma FlyingIsDoing(x: Snapshot)
    requires Exclusive(x.maps)
    ensures Flying(View(x)) == x.maps.doing.Keys
  {
    forall d ensures d in Flying(View(x)) <==> d in x.maps.doing {
      PhaseAt(x.maps, d);
      assert ExclusiveAt(x.maps, d);
    }
  }

  /** Every request is counted once: as a cache hit, a stale hit, a query answer or a waiter. */
  lemma CountersConserve(x: Snapshot, events: seq<Event>)
    requires Refines(x, events)
    ensures x.counters.total
            == x.counters.cached + x.counters.trashed + Count(x.replies, Query) + |Bag(x.maps.doing)|
    ensures Count(x.replies, Query) == FruitfulResponses(events)
    ensures multiset(Requested(events)) == multiset(Senders(x.replies)) + Bag(x.maps.doing)
  {
    WaitingIsDoing(x.maps);
    CounterLaw(events);
    Conservation(events);
    QueryRepliesPerResponse(events);
  }

  /** With a driver that answers each query once, the waiting lists are the queries in flight. */
  lemma {:induction false} DoingIsInFlight(x: Snapshot, events: seq<Event>)
    requires Refines(x, events) && Solicited(events)
    ensures multiset(x.queries) == multiset(Answered(events)) + multiset(x.maps.doing.Keys)
    ensures x.counters.driver == |Answered(events)| + |x.maps.doing|
  {
    FlyingIsDoing(x);
    SingleFlight(events);
  }

  /** With records from the constructors, the stale store holds successful answers only. */
  lemma TrashIsSuccessful(x: Snapshot, events: seq<Event>, d: Domain)
    requires Refines(x, events) && Driven(events) && d in x.maps.trash
    ensures x.maps.trash[d].inner.result.Ok? && x.maps.trash[d].inner.domain == d
    ensures WellBuilt(x.maps.trash[d].inner)
  {
    PhaseAt(x.maps, d);
    assert ExclusiveAt(x.maps, d);
    RunWellFormed(d, events);
  }

  /** From this reply on, what was answered from the cache was live at `now`. */
  ghost predicate LiveFrom(replies: seq<Reply>, start: nat, now: Instant) {
    forall i :: start <= i < |replies| && replies[i].source == Cache ==>
      && replies[i].record.expire.Some? && replies[i].record.expire.value > now
      && !replies[i].record.IsExpired(now)
  }

  ghost predicate AllLive(cache: map<Domain, CachedRecord>, now: Instant) {
    forall d :: d in cache ==> cache[d].expireAt > now
  }

  lemma RequestIsLive(x: Snapshot, d: Domain, sender: Sender, now: Instant, start: nat)
    requires Exclusive(x.maps) && AllLive(x.maps.cache, now) && LiveFrom(x.replies, start, now)
    ensures x.replies <= Step(View(x), Request(d, sender)).replies
    ensures LiveFrom(Step(View(x), Request(d, sender)).replies, start, now)
  {
    assert ExclusiveAt(x.maps, d);
    PhaseAt(x.maps, d);
  }

  lemma RequestEventsStep(requests: seq<(Domain, Sender)>, i: nat, events: seq<Event>)
    requires i < |requests|
    ensures events + RequestEvents(requests[..i]) + [Request(requests[i].0, requests[i].1)]
            == events + RequestEvents(requests[..i + 1])
  {
  }

  lemma ResponseEventsStep(records: seq<Record>, i: nat, events: seq<Event>)
    requires i < |records|
    ensures events + ResponseEvents(records[..i]) + [Response(records[i])] == events + ResponseEvents(records[..i + 1])
  {
  }

  /** Nothing but expiries was handled in between. */
  ghost predicate OnlyExpiries(before: seq<Event>, after: seq<Event>) {
    before <= after && forall i :: |before| <= i < |after| ==> after[i].Expire?
  }

  function ResponseEvents(records: seq<Record>): (es: seq<Event>)
    ensures |es| == |records|
  {
    seq(|records|, i requires 0 <= i < |records| => Response(records[i]))
  }

  function RequestEvents(requests: seq<(Domain, Sender)>): (es: seq<Event>)
    ensures |es| == |requests|
  {
    seq(|requests|, i requires 0 <= i < |requests| => Request(requests[i].0, requests[i].1))
  }

  lemma Behind(a: seq<Reply>, b: seq<Reply>)
    ensures (a + b)[|a|..] == b && a + [] == a
  {
  }

  lemma AssocReplies(a: seq<Reply>, b: seq<Reply>, c: seq<Reply>)
    ensures a + b + c == a + (b + c)
  {
  }

  class FamilyRuntime {
    var cache: map<Domain, CachedRecord>
    var doing: map<Domain, seq<Sender>>
    var trash: map<Domain, TrashedRecord>
    const expired: DelayQueue<Domain>
    var hasDriver: bool
    var counters: Counters

    /** What went out: replies to requesters, and queries handed to the driver. */
    var replies: seq<Reply>
    var queries: seq<Domain>

    /** Everything handled so far. */
    ghost var events: seq<Event>

    ghost function Contents(): (x: Snapshot)
      reads this
    {
      Snapshot(Maps(cache, doing, trash), counters, replies, queries)
    }

    ghost predicate Valid()
      reads this, expired
    {
      && Refines(Contents(), events)
      && Indexed(cache, expired.timers, {})
    }

    constructor ()
      ensures Valid() && fresh(expired)
      ensures events == [] && !hasDriver
    {
      cache, doing, trash := map[], map[], map[];
      expired := new DelayQueue();
      hasDriver := false;
      counters := Counters(0, 0, 0, 0);
      replies, queries, events := [], [], [];
      new;
      assert PhasesOf(Contents().maps) == map[];
    }

    method SendAll(senders: seq<Sender>, record: Record, source: Source)
      modifies this`replies
      ensures replies == old(replies) + RepliesTo(senders, record, source)
    {
      for i := 0 to |senders|
        invariant replies == old(replies) + RepliesTo(senders[..i], record, source)
      {
        replies := replies + [Reply(senders[i], record, source)];
        assert RepliesTo(senders[..i + 1], record, source)
            == RepliesTo(senders[..i], record, source) + [Reply(senders[i], record, source)];
      }
      assert senders[..|senders|] == senders;
    }

    /** The newest waiter learns of the query, the rest count as served from the cache. */
    method AnswerWaiters(senders: seq<Sender>, record: Record)
      modifies this`replies, this`counters
      ensures replies == old(replies) + FanOut(senders, record)
      ensures Tells(replies[|old(replies)|..], senders, record)
      ensures counters == old(counters).(cached := old(counters).cached + Count(FanOut(senders, record), Cache))
    {
      CountFanOut(senders, record, Cache);
      FanOutTells(senders, record);
      Behind(replies, FanOut(senders, record));
      if senders != [] {
        var newest, others := senders[|senders| - 1], senders[..|senders| - 1];
        replies := replies + [Reply(newest, record, Query)];
        counters := counters.(cached := counters.cached + |others|);
        SendAll(others, record, Cache);
        AssocReplies(old(replies), [Reply(newest, record, Query)], RepliesTo(others, record, Cache));
      }
    }

    method UpdateCache(record: Record, expireAt: Instant)
      requires record.domain in cache && cache[record.domain].expireKey.Some? ==>
                 && cache[record.domain].expireKey.value in expired.timers
                 && expired.timers[cache[record.domain].expireKey.value].item == record.domain
      modifies this`cache, expired
      ensures record.domain in cache && cache[record.domain].expireKey.Some?
      ensures cache == old(cache)[record.domain := CachedRecord(record, expireAt, cache[record.domain].expireKey)]
      ensures var key := cache[record.domain].expireKey.value;
              && expired.timers == old(expired.timers)[key := Timer(expireAt, record.domain)]
              && (if record.domain in old(cache) && old(cache)[record.domain].expireKey.Some?
                  then old(cache)[record.domain].expireKey == Some(key)
                  else key !in old(expired.timers))
    {
      var key: nat;
      if record.domain in cache {
        match cache[record.domain].expireKey {
          case Some(k) =>
            expired.ResetAt(k, expireAt);
            key := k;
          case None =>
            key := expired.InsertAt(record.domain, expireAt);
        }
      } else {
        key := expired.InsertAt(record.domain, expireAt);
      }
      cache := cache[record.domain := CachedRecord(record, expireAt, Some(key))];
    }

    /** One expired timer: the answer turns stale if it may be kept, and is forgotten otherwise. */
    method HandleExpired(domain: Domain)
      requires Refines(Contents(), events) && Indexed(cache, expired.timers, {domain})
      modifies this
      ensures Valid() && hasDriver == old(hasDriver)
      ensures events == old(events) + [Expire(domain)]
      ensures View(Contents()) == Step(old(View(Contents())), Expire(domain))
      ensures cache == old(cache) - {domain} && replies == old(replies)
    {
      ghost var before := Contents();
      IndexedDrop(cache, expired.timers, domain);
      if domain in cache {
        var r := cache[domain];
        assert ExclusiveAt(before.maps, domain);
        cache := cache - {domain};
        if r.inner.vanish.Some? {
          trash := trash[r.inner.domain := TrashedRecord(r.inner, r.inner.vanish.value)];
        }
      } else {
        assert cache - {domain} == cache;
      }
      ExpireRefines(before, Contents(), events, domain);
      events := events + [Expire(domain)];
    }

    method HandleRsp(record: Record)
      requires Valid()
      modifies this, expired
      ensures Valid() && hasDriver == old(hasDriver)
      ensures events == old(events) + [Response(record)]
      ensures View(Contents()) == Step(old(View(Contents())), Response(record))
    {
      if !record.IsAcceptable() && record.domain in trash {
        KeepStale(record);
      } else {
        AcceptRecord(record);
      }
    }

    /** A failure while a stale answer is kept: whoever waits gets the stale answer; nobody does. */
    method KeepStale(record: Record)
      requires Valid() && !record.IsAcceptable() && record.domain in trash
      modifies this
      ensures Valid() && hasDriver == old(hasDriver)
      ensures events == old(events) + [Response(record)]
      ensures View(Contents()) == Step(old(View(Contents())), Response(record))
      ensures replies == old(replies) && trash == old(trash) && cache == old(cache)
    {
      var d := record.domain;
      ghost var before := Contents();
      assert ExclusiveAt(before.maps, d);
      if d in doing {
        var senders := doing[d];
        doing := doing - {d};
        counters := counters.(trashed := counters.trashed + |senders|);
        SendAll(senders, trash[d].inner, Trash);
      } else {
        assert doing - {d} == doing;
      }
      StaleResponseRefines(before, Contents(), events, record);
      events := events + [Response(record)];
    }

    method AcceptRecord(record: Record)
      requires Valid() && (record.IsAcceptable() || record.domain !in trash)
      modifies this, expired
      ensures Valid() && hasDriver == old(hasDriver)
      ensures events == old(events) + [Response(record)]
      ensures View(Contents()) == Step(old(View(Contents())), Response(record))
    {
      ghost var before := Contents();
      TakeRecord(record);
      ghost var after := Contents();
      ResponseRefines(before, after, events, record);
      events := events + [Response(record)];
      assert Contents() == after;
    }

    method TakeRecord(record: Record)
      requires Indexed(cache, expired.timers, {}) && (record.IsAcceptable() || record.domain !in trash)
      modifies this`cache, this`doing, this`trash, this`counters, this`replies, expired
      ensures Indexed(cache, expired.timers, {})
      ensures Accepted(old(Contents()), Contents(), record)
    {
      var d := record.domain;
      if record.IsAcceptable() {
        trash := trash - {d};
      } else {
        assert trash - {d} == trash;
      }
      var senders := ListOf(doing, d);
      doing := doing - {d};
      AnswerWaiters(senders, record);
      if record.expire.Some? {
        StoreRecord(record, record.expire.value);
      }
    }

    /** Storing an answer keeps the index; the key in use is never stale. */
    method StoreRecord(record: Record, expireAt: Instant)
      requires Indexed(cache, expired.timers, {})
      modifies this`cache, expired
      ensures Indexed(cache, expired.timers, {})
      ensures record.domain in cache && cache[record.domain].expireKey.Some?
      ensures cache == old(cache)[record.domain := CachedRecord(record, expireAt, cache[record.domain].expireKey)]
    {
      assert HasTimer(cache, expired.timers, record.domain);
      UpdateCache(record, expireAt);
      IndexedPut(old(cache), old(expired.timers), cache[record.domain], record.domain);
    }

    method HandleReq(domain: Domain, sender: Sender)
      requires Valid() && hasDriver
      modifies this
      ensures Valid() && hasDriver
      ensures events == old(events) + [Request(domain, sender)]
      ensures View(Contents()) == Step(old(View(Contents())), Request(domain, sender))
      ensures cache == old(cache)
    {
      ghost var before := Contents();
      ServeOrAsk(domain, sender);
      RequestRefines(before, Contents(), events, domain, sender);
      events := events + [Request(domain, sender)];
    }

    method ServeOrAsk(domain: Domain, sender: Sender)
      requires hasDriver
      modifies this`doing, this`counters, this`replies, this`queries
      ensures Served(old(Contents()), Contents(), domain, sender)
      ensures counters == RequestCounted(old(Contents()), Contents(), domain)
    {
      counters := counters.(total := counters.total + 1);
      if domain in cache {
        counters := counters.(cached := counters.cached + 1);
        replies := replies + [Reply(sender, cache[domain].inner, Cache)];
      } else if domain in trash {
        counters := counters.(trashed := counters.trashed + 1);
        replies := replies + [Reply(sender, trash[domain].inner, Trash)];
        if domain !in doing {
          AskDriver(domain);
          doing := doing[domain := []];
        }
      } else if domain in doing {
        doing := doing[domain := doing[domain] + [sender]];
      } else {
        doing := doing[domain := [sender]];
        AskDriver(domain);
      }
    }

    /** The original would not survive asking without a driver. */
    method AskDriver(domain: Domain)
      requires hasDriver
      modifies this`counters, this`queries
      ensures counters == old(counters).(driver := old(counters).driver + 1)
      ensures queries == old(queries) + [domain]
    {
      counters := counters.(driver := counters.driver + 1);
      queries := queries + [domain];
    }

    method CleanTrash(now: Instant)
      requires Valid()
      modifies this
      ensures Valid() && hasDriver == old(hasDriver)
      ensures events == old(events) + [Clean(now)]
      ensures View(Contents()) == Step(old(View(Contents())), Clean(now))
      ensures forall d :: d in trash ==> trash[d].vanishAt > now
    {
      ghost var before := Contents();
      trash := map d | d in trash && trash[d].vanishAt > now :: trash[d];
      CleanRefines(before, Contents(), events, now);
      events := events + [Clean(now)];
    }

    /** The head of every poll: make sure there is a driver, then forget stale answers past their time. */
    method StartPoll(now: Instant, driverStarts: bool) returns (ok: bool)
      requires Valid()
      modifies this
      ensures Valid()
      ensures ok <==> old(hasDriver) || driverStarts
      ensures ok ==> hasDriver && View(Contents()) == Step(old(View(Contents())), Clean(now))
      ensures ok ==> events == old(events) + [Clean(now)]
      ensures !ok ==> Contents() == old(Contents()) && events == old(events) && !hasDriver
    {
      ok := hasDriver || driverStarts;
      if ok {
        hasDriver := true;
        CleanTrash(now);
      }
    }

    /** One round of the expiry loop: handles a timer that is due, or finds that all answers are live. */
    method ExpireOne(now: Instant) returns (more: bool)
      requires Valid()
      modifies this, expired
      ensures Valid() && hasDriver == old(hasDriver) && replies == old(replies)
      ensures OnlyExpiries(old(events), events)
      ensures more ==> |expired.timers| < |old(expired.timers)|
      ensures !more ==> expired.timers == old(expired.timers) && cache == old(cache)
      ensures !more ==> AllLive(cache, now)
      ensures forall d :: d in old(cache) && old(cache)[d].expireAt > now ==> d in cache && cache[d] == old(cache)[d]
    {
      ghost var timers := expired.timers;
      var key, item := expired.PollExpired(now);
      more := key.Some?;
      if more {
        IndexedPop(cache, timers, key.value);
        assert HasEntry(cache, timers, key.value) && HasTimer(cache, timers, item.value);
        HandleExpired(item.value);
      } else {
        forall d | d in cache ensures cache[d].expireAt > now {
          assert HasTimer(cache, expired.timers, d);
        }
      }
    }

    /** Handles every timer that is due at `now`; afterwards the cache holds only live answers. */
    method DrainExpired(now: Instant)
      requires Valid()
      modifies this, expired
      ensures Valid() && hasDriver == old(hasDriver) && replies == old(replies)
      ensures OnlyExpiries(old(events), events)
      ensures AllLive(cache, now)
      ensures forall d :: d in old(cache) && old(cache)[d].expireAt > now ==> d in cache && cache[d] == old(cache)[d]
    {
      var more := true;
      while more
        invariant Valid() && hasDriver == old(hasDriver) && replies == old(replies)
        invariant OnlyExpiries(old(events), events)
        invariant !more ==> AllLive(cache, now)
        invariant forall d :: d in old(cache) && old(cache)[d].expireAt > now ==>
                    d in cache && cache[d] == old(cache)[d]
        decreases |expired.timers|, more
      {
        more := ExpireOne(now);
      }
    }

    /**
      One turn of the poll loop for this family: responses first, then expiries at
      `now`, then at most `batch` requests. A request answered from the cache in this
      turn gets a record that is still live at `now`; `served` counts the replies sent
      before the first of these requests.
     */
    method Turn(now: Instant, responses: seq<Record>, requests: seq<(Domain, Sender)>, batch: nat)
      returns (handled: nat, ghost served: nat, ghost expiries: seq<Event>)
      requires Valid() && hasDriver
      modifies this, expired
      ensures Valid() && hasDriver
      ensures handled <= |requests|
      ensures events == old(events) + ResponseEvents(responses) + expiries + RequestEvents(requests[..handled])
      ensures forall i :: 0 <= i < |expiries| ==> expiries[i].Expire?
      ensures handled == if |requests| < batch then |requests| else batch
      ensures served == |Run(old(events) + ResponseEvents(responses) + expiries).replies|
      ensures served <= |replies| && LiveFrom(replies, served, now) && AllLive(cache, now)
      ensures Count(replies, Query) + |Bag(doing)| + counters.cached + counters.trashed == counters.total
    {
      TakeResponses(responses);
      ghost var mid := events;
      DrainExpired(now);
      served := |replies|;
      expiries := events[|mid|..];
      assert events == mid + expiries;
      handled := ServeBatch(now, requests, batch);
      CountersConserve(Contents(), events);
    }

    method TakeResponses(responses: seq<Record>)
      requires Valid()
      modifies this, expired
      ensures Valid() && hasDriver == old(hasDriver)
      ensures events == old(events) + ResponseEvents(responses)
    {
      for i := 0 to |responses|
        invariant Valid() && hasDriver == old(hasDriver)
        invariant events == old(events) + ResponseEvents(responses[..i])
      {
        HandleRsp(responses[i]);
        ResponseEventsStep(responses, i, old(events));
      }
      assert responses[..|responses|] == responses;
    }

    method ServeBatch(now: Instant, requests: seq<(Domain, Sender)>, batch: nat) returns (handled: nat)
      requires Valid() && hasDriver && AllLive(cache, now)
      modifies this
      ensures Valid() && hasDriver && cache == old(cache)
      ensures handled == if |requests| < batch then |requests| else batch
      ensures events == old(events) + RequestEvents(requests[..handled])
      ensures old(replies) <= replies && LiveFrom(replies, |old(replies)|, now)
    {
      handled := 0;
      while handled < batch && handled < |requests|
        invariant handled <= batch && handled <= |requests|
        invariant Valid() && hasDriver && cache == old(cache)
        invariant events == old(events) + RequestEvents(requests[..handled])
        invariant old(replies) <= replies && LiveFrom(replies, |old(replies)|, now)
      {
        var (domain, sender) := requests[handled];
        RequestIsLive(Contents(), domain, sender, now, |old(replies)|);
        HandleReq(domain, sender);
        RequestEventsStep(requests, handled, old(events));
        handled := handled + 1;
      }
    }
  }
}

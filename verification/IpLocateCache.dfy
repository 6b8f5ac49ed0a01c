/**
  The cache actor of the location client: answers requests out of a prefix table,
  lets requests for one address wait on one query, and stores what comes back.
 */
module IpLocateCache {
  import opened Options
  import opened Bags
  import opened IpNetworks
  import opened GeoLocate

  type Instant = nat

  /** A request with the identity of its one-shot notifier. */
  datatype Request = Request(ip: Ip, notifier: nat)

  datatype CacheValue = CacheValue(validBefore: Instant, location: Location)

  datatype Response = Response(value: Option<Location>, expireAt: Instant)

  /** What becomes of a request: a location is sent, or the notifier is dropped and its owner sees none. */
  datatype Notice = Sent(request: Request, location: Location) | Dropped(request: Request)

  datatype CacheState = CacheState(
    table: map<Net, CacheValue>,
    doing: map<Ip, seq<Request>>,
    notices: seq<Notice>)

  function Waiting(doing: map<Ip, seq<Request>>, ip: Option<Ip>): (rs: seq<Request>) {
    if ip.Some? && ip.value in doing then doing[ip.value] else []
  }

  function Close(doing: map<Ip, seq<Request>>, ip: Option<Ip>): (d: map<Ip, seq<Request>>) {
    if ip.Some? then doing - {ip.value} else doing
  }

  function SendTo(rs: seq<Request>, location: Location): (ns: seq<Notice>)
    ensures |ns| == |rs|
  {
    seq(|rs|, i requires 0 <= i < |rs| => Sent(rs[i], location))
  }

  function DropAll(rs: seq<Request>): (ns: seq<Notice>)
    ensures |ns| == |rs|
  {
    seq(|rs|, i requires 0 <= i < |rs| => Dropped(rs[i]))
  }

  predicate Misplaced(ip: Option<Ip>, rsp: Response) {
    rsp.value.Some? && ip.Some? && !Contains(rsp.value.value.net, ip.value)
  }

  /** How the waiters of the answered address are told. */
  function Verdict(c: CacheState, ip: Option<Ip>, rsp: Response): (ns: seq<Notice>) {
    var rs := Waiting(c.doing, ip);
    if Misplaced(ip, rsp) then DropAll(rs)
    else if rsp.value.Some? then SendTo(rs, rsp.value.value)
    else if ip.Some? && LongestMatch(c.table, ip.value).Some? then
      SendTo(rs, c.table[LongestMatch(c.table, ip.value).value].location)
    else DropAll(rs)
  }

  function OnResponse(c: CacheState, ip: Option<Ip>, rsp: Response): (r: CacheState) {
    var table :=
      if rsp.value.None? || Misplaced(ip, rsp) then c.table
      else Stored(c.table, ip, rsp.value.value.net, CacheValue(rsp.expireAt, rsp.value.value));
    CacheState(table, Close(c.doing, ip), c.notices + Verdict(c, ip, rsp))
  }

  predicate Fresh(c: CacheState, ip: Ip, now: Instant) {
    var m := LongestMatch(c.table, ip);
    m.Some? && c.table[m.value].validBefore >= now
  }

  function OnRequest(c: CacheState, req: Request, now: Instant): (r: CacheState) {
    if Fresh(c, req.ip, now) then
      c.(notices := c.notices + [Sent(req, c.table[LongestMatch(c.table, req.ip).value].location)])
    else
      c.(doing := c.doing[req.ip := Waiting(c.doing, Some(req.ip)) + [req]])
  }

  /** The query a request gives rise to, if it is the first to wait for its address. */
  function QueriesOf(c: CacheState, req: Request, now: Instant): (qs: seq<Ip>) {
    if Fresh(c, req.ip, now) || req.ip in c.doing then [] else [req.ip]
  }

  // ---------------------------------------------------------------------------
  // Invariants of the actor on its own

  ghost predicate Sane(c: CacheState) {
    && (forall n :: n in c.table ==> c.table[n].location.net == n)
    && (forall ip, i :: ip in c.doing && 0 <= i < |c.doing[ip]| ==> c.doing[ip][i].ip == ip)
    && (forall ip :: ip in c.doing ==> c.doing[ip] != [])
    && (forall i :: 0 <= i < |c.notices| && c.notices[i].Sent? ==>
          Contains(c.notices[i].location.net, c.notices[i].request.ip))
  }

  /** Fresh, cached or stale: a location is only ever sent to an address its network contains. */
  lemma ResponseKeepsSane(c: CacheState, ip: Option<Ip>, rsp: Response)
    requires Sane(c)
    ensures Sane(OnResponse(c, ip, rsp))
  {
  }

  lemma RequestKeepsSane(c: CacheState, req: Request, now: Instant)
    requires Sane(c)
    ensures Sane(OnRequest(c, req, now))
  {
  }

  // ---------------------------------------------------------------------------
  // What requests and responses do, in terms of the table's entries

  /** A most specific entry around an address. */
  ghost predicate IsLongest(table: map<Net, CacheValue>, ip: Ip, net: Net) {
    && net in table && Contains(net, ip)
    && forall n :: n in table && Contains(n, ip) ==> n.Netmask() <= net.Netmask()
  }

  lemma LongestIff(table: map<Net, CacheValue>, ip: Ip, net: Net)
    ensures IsLongest(table, ip, net) <==> LongestMatch(table, ip) == Some(net)
  {
    if IsLongest(table, ip, net) {
      LongestMatchIs(table, ip, net);
    }
  }

  /**
    What a waiter is told: the location, if its network contains the address; after an empty
    answer, the location of the most specific entry around the address, expired or not; and
    nothing exactly for a location elsewhere or an empty answer without such an entry.
   */
  lemma WaiterIsTold(c: CacheState, ip: Ip, rsp: Response, i: nat)
    requires ip in c.doing && i < |c.doing[ip]|
    ensures var rs, c' := c.doing[ip], OnResponse(c, Some(ip), rsp);
            && |c'.notices| == |c.notices| + |rs|
            && var n := c'.notices[|c.notices| + i];
               && n.request == rs[i]
               && (rsp.value.Some? && Contains(rsp.value.value.net, ip) ==> n == Sent(rs[i], rsp.value.value))
               && (rsp.value.None? ==> forall net :: IsLongest(c.table, ip, net) ==>
                     n == Sent(rs[i], c.table[net].location))
               && (n == Dropped(rs[i]) <==>
                     if rsp.value.Some? then !Contains(rsp.value.value.net, ip)
                     else forall net :: net in c.table ==> !Contains(net, ip))
  {
    forall net ensures IsLongest(c.table, ip, net) <==> LongestMatch(c.table, ip) == Some(net) {
      LongestIff(c.table, ip, net);
    }
  }

  /** A response closes the list of its address, and nobody else's. */
  lemma ListsAfter(c: CacheState, ip: Option<Ip>, rsp: Response)
    ensures var c' := OnResponse(c, ip, rsp);
            && (forall x :: x in c'.doing <==> x in c.doing && ip != Some(x))
            && (forall x :: x in c'.doing ==> c'.doing[x] == c.doing[x])
            && (ip.None? || ip.value !in c.doing ==> c'.notices == c.notices)
            && c.notices <= c'.notices
  {
  }

  /** A location is stored if it was not asked for elsewhere, in place of the longer entries around the address. */
  lemma TableAfter(c: CacheState, ip: Option<Ip>, rsp: Response)
    ensures var table' := OnResponse(c, ip, rsp).table;
            if rsp.value.None? || (ip.Some? && !Contains(rsp.value.value.net, ip.value)) then table' == c.table
            else
              var net := rsp.value.value.net;
              && net in table' && table'[net] == CacheValue(rsp.expireAt, rsp.value.value)
              && forall n: Net :: n != net ==>
                   && (n in table' <==>
                         n in c.table && !(ip.Some? && Contains(n, ip.value) && n.Netmask() > net.Netmask()))
                   && (n in table' ==> table'[n] == c.table[n])
  {
  }

  /** While the most specific entry is valid, a request is answered with it and causes no query. */
  lemma FreshIsServed(c: CacheState, req: Request, now: Instant, net: Net)
    requires IsLongest(c.table, req.ip, net) && c.table[net].validBefore >= now
    ensures OnRequest(c, req, now) == c.(notices := c.notices + [Sent(req, c.table[net].location)])
    ensures QueriesOf(c, req, now) == []
  {
    LongestIff(c.table, req.ip, net);
  }

  /**
    Otherwise, an expired entry or none at all: nothing is sent, the request joins the end of
    its address's list, and a query goes out exactly if it opens that list.
   */
  lemma OthersWait(c: CacheState, req: Request, now: Instant)
    requires forall net :: IsLongest(c.table, req.ip, net) ==> c.table[net].validBefore < now
    ensures var c' := OnRequest(c, req, now);
            && c'.table == c.table && c'.notices == c.notices
            && c'.doing == c.doing[req.ip := (if req.ip in c.doing then c.doing[req.ip] else []) + [req]]
    ensures QueriesOf(c, req, now) == if req.ip in c.doing then [] else [req.ip]
  {
    var m := LongestMatch(c.table, req.ip);
    if m.Some? {
      LongestIff(c.table, req.ip, m.value);
    }
  }

  // ---------------------------------------------------------------------------
  // What an answer is good for

  datatype Event = Asked(req: Request, now: Instant) | Answered(ip: Option<Ip>, rsp: Response)

  function Handle(c: CacheState, e: Event): (r: CacheState) {
    match e
    case Asked(req, now) => OnRequest(c, req, now)
    case Answered(ip, rsp) => OnResponse(c, ip, rsp)
  }

  function From(c: CacheState, more: seq<Event>): (r: CacheState) {
    if more == [] then c else Handle(From(c, more[..|more| - 1]), more[|more| - 1])
  }

  /** The table answers this address with this entry. */
  predicate Answers(table: map<Net, CacheValue>, a: Ip, net: Net, v: CacheValue) {
    LongestMatch(table, a) == Some(net) && table[net] == v
  }

  /**
    The responses that take an entry away from an address: one that stores a longer
    network around it, another value for the network itself, or a shorter network that
    was queried for an address of this one.
   */
  predicate Displaces(e: Event, a: Ip, net: Net, v: CacheValue) {
    && e.Answered? && e.rsp.value.Some? && !Misplaced(e.ip, e.rsp)
    && var n := e.rsp.value.value.net;
       || (Contains(n, a) && n.Netmask() > net.Netmask())
       || (n == net && CacheValue(e.rsp.expireAt, e.rsp.value.value) != v)
       || (e.ip.Some? && Shadows(net, e.ip.value, n))
  }

  lemma AnswerStaysIff(c: CacheState, e: Event, a: Ip, net: Net, v: CacheValue)
    requires Answers(c.table, a, net, v)
    ensures Answers(Handle(c, e).table, a, net, v) <==> !Displaces(e, a, net, v)
  {
    if e.Answered? && e.rsp.value.Some? && !Misplaced(e.ip, e.rsp) {
      var n, table' := e.rsp.value.value.net, Handle(c, e).table;
      if !Displaces(e, a, net, v) {
        forall m | m in table' && Contains(m, a) ensures m.Netmask() <= net.Netmask() {
          if m != n { assert m in c.table; }
        }
        LongestMatchIs(table', a, net);
      }
    }
  }

  /**
    An accepted answer serves its network: through any requests and responses that do not
    displace it, and until it expires, a request for the queried address, or for any
    address of the network without a longer entry that leaves the queried address out, is
    answered with it at once and without a query.
   */
  lemma {:induction false} AnswerIsServed(c: CacheState, ip: Ip, location: Location, expireAt: Instant,
                                          more: seq<Event>, req: Request, now: Instant)
    requires Contains(location.net, ip) && Contains(location.net, req.ip) && now <= expireAt
    requires var was := LongestMatch(c.table, req.ip);
             req.ip == ip || was.None? || was.value.Netmask() <= location.net.Netmask() || Contains(was.value, ip)
    requires forall i :: 0 <= i < |more| ==>
               !Displaces(more[i], req.ip, location.net, CacheValue(expireAt, location))
    ensures var c' := From(OnResponse(c, Some(ip), Response(Some(location), expireAt)), more);
            && Answers(c'.table, req.ip, location.net, CacheValue(expireAt, location))
            && OnRequest(c', req, now) == c'.(notices := c'.notices + [Sent(req, location)])
            && QueriesOf(c', req, now) == []
    decreases |more|
  {
    if more == [] {
      StoredLookup(c.table, ip, location.net, CacheValue(expireAt, location), req.ip);
    } else {
      var init := more[..|more| - 1];
      AnswerIsServed(c, ip, location, expireAt, init, req, now);
      AnswerStaysIff(From(OnResponse(c, Some(ip), Response(Some(location), expireAt)), init), more[|more| - 1],
                     req.ip, location.net, CacheValue(expireAt, location));
    }
  }

  // ---------------------------------------------------------------------------
  // Every request gets one notice or waits

  function Notified(notices: seq<Notice>): (rs: seq<Request>)
    ensures |rs| == |notices|
  {
    seq(|notices|, i requires 0 <= i < |notices| => notices[i].request)
  }

  lemma NotifiedVerdict(c: CacheState, ip: Option<Ip>, rsp: Response)
    ensures Notified(Verdict(c, ip, rsp)) == Waiting(c.doing, ip)
  {
  }

  lemma ResponseBalance(c: CacheState, ip: Option<Ip>, rsp: Response, x: Request)
    ensures var c' := OnResponse(c, ip, rsp);
            multiset(Notified(c'.notices))[x] + Bag(c'.doing)[x]
            == multiset(Notified(c.notices))[x] + Bag(c.doing)[x]
  {
    var out := Verdict(c, ip, rsp);
    NotifiedVerdict(c, ip, rsp);
    assert Notified(c.notices + out) == Notified(c.notices) + Notified(out);
    if ip.Some? {
      BagAt(c.doing, ip.value, x);
    }
  }

  lemma CountMore(rs: seq<Request>, r: Request, x: Request)
    ensures multiset(rs + [r])[x] == multiset(rs)[x] + if x == r then 1 else 0
  {
  }

  /** One more waiter on a list is one more waiter in all. */
  lemma BagMore(doing: map<Ip, seq<Request>>, ip: Ip, req: Request, x: Request)
    ensures Bag(doing[ip := Waiting(doing, Some(ip)) + [req]])[x] == Bag(doing)[x] + if x == req then 1 else 0
  {
    var doing' := doing[ip := Waiting(doing, Some(ip)) + [req]];
    BagAt(doing, ip, x);
    BagAt(doing', ip, x);
    assert doing' - {ip} == doing - {ip};
    CountMore(Waiting(doing, Some(ip)), req, x);
  }

  lemma RequestBalance(c: CacheState, req: Request, now: Instant, x: Request)
    ensures var c' := OnRequest(c, req, now);
            multiset(Notified(c'.notices))[x] + Bag(c'.doing)[x]
            == multiset(Notified(c.notices))[x] + Bag(c.doing)[x] + if x == req then 1 else 0
  {
    if Fresh(c, req.ip, now) {
      assert Notified(OnRequest(c, req, now).notices) == Notified(c.notices) + [req];
      CountMore(Notified(c.notices), req, x);
    } else {
      BagMore(c.doing, req.ip, req, x);
    }
  }

  class CacheRuntime {
    var cache: map<Net, CacheValue>
    var doing: map<Ip, seq<Request>>
    var notices: seq<Notice>

    /** The channel to the query actor. */
    var queries: seq<Ip>

    ghost function View(): (c: CacheState)
      reads this
    {
      CacheState(cache, doing, notices)
    }

    constructor ()
      ensures View() == CacheState(map[], map[], []) && queries == []
    {
      cache, doing, notices, queries := map[], map[], [], [];
    }

    method NotifyAll(requests: seq<Request>, location: Location)
      modifies this`notices
      ensures notices == old(notices) + SendTo(requests, location)
    {
      for i := 0 to |requests|
        invariant notices == old(notices) + SendTo(requests[..i], location)
      {
        notices := notices + [Sent(requests[i], location)];
        assert SendTo(requests[..i + 1], location) == SendTo(requests[..i], location) + [Sent(requests[i], location)];
      }
      assert requests[..|requests|] == requests;
    }

    /** Removes the longer prefixes around the queried address, one lookup at a time. */
    method EvictLonger(queried: Ip, net: Net)
      modifies this`cache
      ensures cache == map n | n in old(cache) && !Shadows(n, queried, net) :: old(cache)[n]
    {
      var found := LongestMatch(cache, queried);
      while found.Some? && found.value.Netmask() > net.Netmask()
        invariant found == LongestMatch(cache, queried)
        invariant forall n :: n in cache ==> n in old(cache) && cache[n] == old(cache)[n]
        invariant forall n :: n in old(cache) && !Shadows(n, queried, net) ==> n in cache
        decreases |cache|
      {
        cache := cache - {found.value};
        found := LongestMatch(cache, queried);
      }
    }

    method HandleRsp(ip: Option<Ip>, rsp: Response)
      modifies this`cache, this`doing, this`notices
      ensures View() == OnResponse(old(View()), ip, rsp)
    {
      if rsp.value.Some? {
        var location := rsp.value.value;
        var net := location.net;
        if ip.Some? && !Contains(net, ip.value) {
          notices := notices + DropAll(Waiting(doing, ip));
          doing := doing - {ip.value};
          return;
        }
        if ip.Some? && ip.value in doing {
          var requests := doing[ip.value];
          doing := doing - {ip.value};
          NotifyAll(requests, location);
        } else {
          assert Close(doing, ip) == doing;
        }
        if ip.Some? {
          EvictLonger(ip.value, net);
        }
        cache := cache[net := CacheValue(rsp.expireAt, location)];
      } else if ip.Some? {
        if ip.value in doing {
          var requests := doing[ip.value];
          doing := doing - {ip.value};
          var m := LongestMatch(cache, ip.value);
          if m.Some? {
            NotifyAll(requests, cache[m.value].location);
          } else {
            notices := notices + DropAll(requests);
          }
        } else {
          assert Close(doing, ip) == doing;
        }
      }
    }

    method HandleReq(req: Request, now: Instant)
      modifies this`doing, this`notices, this`queries
      ensures View() == OnRequest(old(View()), req, now)
      ensures queries == old(queries) + QueriesOf(old(View()), req, now)
    {
      var m := LongestMatch(cache, req.ip);
      if m.Some? && cache[m.value].validBefore >= now {
        notices := notices + [Sent(req, cache[m.value].location)];
        return;
      }
      if req.ip in doing {
        doing := doing[req.ip := doing[req.ip] + [req]];
      } else {
        assert [] + [req] == [req];
        doing := doing[req.ip := [req]];
        queries := queries + [req.ip];
      }
    }
  }
}

/**
  The query actor of the location client: turns addresses into datagrams, remembers
  which are outstanding together with a timer for each, and reports every outcome
  (answer, failed send, timeout) back to the cache actor.
 */
module IpLocateQuery {
  import opened Basics
  import opened Options
  import opened DelayQueues
  import opened IpNetworks
  import opened GeoLocate
  import opened IpLocateCache

  /** A report to the cache actor; the address is missing when a datagram names none. */
  datatype Report = Report(ip: Option<Ip>, rsp: Response)

  ghost predicate Reported(reports: seq<Report>, ip: Ip) {
    exists i :: 0 <= i < |reports| && reports[i].ip == Some(ip)
  }

  lemma ReportedAppend(reports: seq<Report>, more: seq<Report>, ip: Ip)
    ensures Reported(reports + more, ip) <==> Reported(reports, ip) || Reported(more, ip)
  {
    var all := reports + more;
    forall i | 0 <= i < |reports| ensures all[i] == reports[i] {}
    forall i | 0 <= i < |more| ensures all[|reports| + i] == more[i] {}
    if Reported(all, ip) {
      var i :| 0 <= i < |all| && all[i].ip == Some(ip);
      if i >= |reports| { assert more[i - |reports|].ip == Some(ip); }
    }
  }

  /** Whatever was outstanding and no longer is has been reported in `news`. */
  ghost predicate Accounted(before: map<Ip, nat>, after: map<Ip, nat>, news: seq<Report>) {
    forall ip :: ip in before && ip !in after ==> Reported(news, ip)
  }

  lemma AccountedStep(before: map<Ip, nat>, mid: map<Ip, nat>, news: seq<Report>, ip: Ip, rsp: Response)
    requires Accounted(before, mid, news)
    ensures Accounted(before, mid - {ip}, news + [Report(Some(ip), rsp)])
  {
    forall x | x in before && x !in mid - {ip} ensures Reported(news + [Report(Some(ip), rsp)], x) {
      ReportedAppend(news, [Report(Some(ip), rsp)], x);
      assert [Report(Some(ip), rsp)][0].ip == Some(ip);
    }
  }

  /** What has been reported since `base`, after one more report. */
  lemma NewsStep(base: seq<Report>, reports: seq<Report>, r: Report)
    requires base <= reports
    ensures base <= reports + [r] && (reports + [r])[|base|..] == reports[|base|..] + [r]
  {
  }

  datatype QueryState = QueryState(doing: map<Ip, nat>, timers: map<nat, Timer<Ip>>, writeQueue: seq<Ip>)

  /** Outstanding addresses and timers match one to one. */
  ghost predicate TimersAgree(q: QueryState) {
    && (forall ip :: ip in q.doing ==> q.doing[ip] in q.timers && q.timers[q.doing[ip]].item == ip)
    && (forall k :: k in q.timers ==> q.timers[k].item in q.doing && q.doing[q.timers[k].item] == k)
  }

  /** An outcome other than a timeout: the address is no longer outstanding and its timer goes. */
  function Release(q: QueryState, ip: Option<Ip>): (r: QueryState) {
    if ip.Some? && ip.value in q.doing
    then q.(doing := q.doing - {ip.value}, timers := q.timers - {q.doing[ip.value]})
    else q
  }

  /** A timeout: the timer has fired and is gone; the address is no longer outstanding. */
  function Fire(q: QueryState, key: nat): (r: QueryState)
    requires key in q.timers
  {
    q.(doing := q.doing - {q.timers[key].item}, timers := q.timers - {key})
  }

  /** A query request for an address: already outstanding, or new with a fresh timer. */
  function Admit(q: QueryState, ip: Ip, key: nat, deadline: Instant, encodes: bool): (r: QueryState) {
    if ip in q.doing then q
    else
      var q' := q.(doing := q.doing[ip := key], timers := q.timers[key := Timer(deadline, ip)]);
      if encodes then q'.(writeQueue := q.writeQueue + [ip]) else Release(q', Some(ip))
  }

  lemma ReleaseKeeps(q: QueryState, ip: Option<Ip>)
    requires TimersAgree(q)
    ensures TimersAgree(Release(q, ip))
  {
  }

  lemma FireKeeps(q: QueryState, key: nat)
    requires TimersAgree(q) && key in q.timers
    ensures TimersAgree(Fire(q, key))
    ensures Fire(q, key) == Release(q, Some(q.timers[key].item))
  {
  }

  /** An admission that could not be encoded leaves things as they were. */
  lemma AdmitKeepsUnsent(q: QueryState, ip: Ip, key: nat, deadline: Instant)
    ensures TimersAgree(q) && key !in q.timers ==> Admit(q, ip, key, deadline, false) == q
  {
    if TimersAgree(q) && key !in q.timers {
      AdmitKeeps(q, ip, key, deadline, false);
    }
  }

  lemma AdmitKeeps(q: QueryState, ip: Ip, key: nat, deadline: Instant, encodes: bool)
    requires TimersAgree(q) && key !in q.timers
    ensures TimersAgree(Admit(q, ip, key, deadline, encodes))
    ensures !encodes ==> Admit(q, ip, key, deadline, encodes) == q
  {
  }

  datatype SendOutcome = SendOk | SendFailed

  datatype Datagram = Garbage | Parsed(ip: Option<Ip>, location: Option<Location>, ttl: Option<nat>)

  // ---------------------------------------------------------------------------
  // The write loop

  /** The addresses among the first `n` writes that had the given outcome, in order. */
  function Written(queue: seq<Ip>, outcomes: seq<SendOutcome>, n: nat, ok: bool): (ips: seq<Ip>)
    requires n <= |queue| && n <= |outcomes|
  {
    if n == 0 then []
    else Written(queue, outcomes, n - 1, ok) + if outcomes[n - 1].SendOk? == ok then [queue[n - 1]] else []
  }

  ghost predicate Increasing(at: seq<nat>) {
    forall i, j :: 0 <= i < j < |at| ==> at[i] < at[j]
  }

  /** `at` lists the places among the first `n` writes that had the given outcome. */
  ghost predicate Places(at: seq<nat>, outcomes: seq<SendOutcome>, n: nat, ok: bool)
    requires n <= |outcomes|
  {
    && Increasing(at)
    && (forall i :: 0 <= i < |at| ==> at[i] < n && outcomes[at[i]].SendOk? == ok)
    && (forall k :: 0 <= k < n && outcomes[k].SendOk? == ok ==> k in at)
  }

  function PlacesOf(outcomes: seq<SendOutcome>, n: nat, ok: bool): (at: seq<nat>)
    requires n <= |outcomes|
    ensures forall i :: 0 <= i < |at| ==> at[i] < n
  {
    if n == 0 then []
    else PlacesOf(outcomes, n - 1, ok) + if outcomes[n - 1].SendOk? == ok then [n - 1] else []
  }

  lemma {:induction false} PlacesAreHits(outcomes: seq<SendOutcome>, n: nat, ok: bool)
    requires n <= |outcomes|
    ensures var at := PlacesOf(outcomes, n, ok);
            Increasing(at) && forall i :: 0 <= i < |at| ==> outcomes[at[i]].SendOk? == ok
    decreases n
  {
    if n > 0 {
      PlacesAreHits(outcomes, n - 1, ok);
    }
  }

  lemma {:induction false} HitIsPlace(outcomes: seq<SendOutcome>, n: nat, ok: bool, k: nat)
    requires k < n <= |outcomes| && outcomes[k].SendOk? == ok
    ensures k in PlacesOf(outcomes, n, ok)
    decreases n
  {
    if k < n - 1 {
      HitIsPlace(outcomes, n - 1, ok, k);
    }
  }

  lemma {:induction false} WrittenAt(queue: seq<Ip>, outcomes: seq<SendOutcome>, n: nat, ok: bool)
    requires n <= |queue| && n <= |outcomes|
    ensures var ips, at := Written(queue, outcomes, n, ok), PlacesOf(outcomes, n, ok);
            |ips| == |at| && forall i :: 0 <= i < |at| ==> ips[i] == queue[at[i]]
    decreases n
  {
    if n > 0 {
      WrittenAt(queue, outcomes, n - 1, ok);
    }
  }

  /** The addresses written with an outcome are those at these places of the queue. */
  lemma WrittenIs(queue: seq<Ip>, outcomes: seq<SendOutcome>, n: nat, ok: bool) returns (at: seq<nat>)
    requires n <= |queue| && n <= |outcomes|
    ensures Places(at, outcomes, n, ok) && |at| == |Written(queue, outcomes, n, ok)|
    ensures forall i :: 0 <= i < |at| ==> Written(queue, outcomes, n, ok)[i] == queue[at[i]]
  {
    at := PlacesOf(outcomes, n, ok);
    PlacesAreHits(outcomes, n, ok);
    forall k | 0 <= k < n && outcomes[k].SendOk? == ok ensures k in at {
      HitIsPlace(outcomes, n, ok, k);
    }
    WrittenAt(queue, outcomes, n, ok);
  }

  function ReportAll(ips: seq<Ip>, data: Response): (rs: seq<Report>)
    ensures |rs| == |ips|
    ensures forall i :: 0 <= i < |ips| ==> rs[i] == Report(Some(ips[i]), data)
  {
    seq(|ips|, i requires 0 <= i < |ips| => Report(Some(ips[i]), data))
  }

  function ReleaseAll(q: QueryState, ips: seq<Ip>): (r: QueryState) {
    if ips == [] then q else Release(ReleaseAll(q, ips[..|ips| - 1]), Some(ips[|ips| - 1]))
  }

  /** Releasing addresses takes away them and their timers, and nothing else. */
  lemma {:induction false} ReleaseAllIs(q: QueryState, ips: seq<Ip>)
    requires TimersAgree(q)
    ensures var r := ReleaseAll(q, ips);
            && TimersAgree(r) && r.writeQueue == q.writeQueue
            && (forall ip :: ip in r.doing <==> ip in q.doing && ip !in ips)
            && (forall ip :: ip in r.doing ==> r.doing[ip] == q.doing[ip])
            && (forall k :: k in r.timers ==> k in q.timers && r.timers[k] == q.timers[k])
    decreases |ips|
  {
    if ips != [] {
      var init, last := ips[..|ips| - 1], ips[|ips| - 1];
      ReleaseAllIs(q, init);
      ReleaseKeeps(ReleaseAll(q, init), Some(last));
      assert forall ip :: ip in ips <==> ip in init || ip == last by { assert ips == init + [last]; }
    }
  }

  lemma AllReported(ips: seq<Ip>, data: Response, ip: Ip)
    requires ip in ips
    ensures Reported(ReportAll(ips, data), ip)
  {
    var i :| 0 <= i < |ips| && ips[i] == ip;
    assert ReportAll(ips, data)[i].ip == Some(ip);
  }

  /** The actor's state together with what it has sent and reported. */
  datatype Side = Side(query: QueryState, sent: seq<Ip>, reports: seq<Report>)

  function AfterWrite(s: Side, outcome: SendOutcome, data: Response): (r: Side)
    requires s.query.writeQueue != []
  {
    var ip, rest := s.query.writeQueue[0], s.query.(writeQueue := s.query.writeQueue[1..]);
    if outcome.SendOk? then s.(query := rest, sent := s.sent + [ip])
    else s.(query := Release(rest, Some(ip)), reports := s.reports + [Report(Some(ip), data)])
  }

  /** `n` writes, one after the other. */
  function AfterWrites(s: Side, outcomes: seq<SendOutcome>, n: nat, data: Response): (r: Side)
    requires n <= |s.query.writeQueue| && n <= |outcomes|
    ensures r.query.writeQueue == s.query.writeQueue[n..]
  {
    if n == 0 then s else AfterWrite(AfterWrites(s, outcomes, n - 1, data), outcomes[n - 1], data)
  }

  /** After `n` writes: the successful ones are sent, the failed ones released and reported. */
  function Flushed(s: Side, outcomes: seq<SendOutcome>, n: nat, data: Response): (r: Side)
    requires n <= |s.query.writeQueue| && n <= |outcomes|
  {
    var queue := s.query.writeQueue;
    var fails := Written(queue, outcomes, n, false);
    Side(ReleaseAll(s.query, fails).(writeQueue := queue[n..]),
         s.sent + Written(queue, outcomes, n, true),
         s.reports + ReportAll(fails, data))
  }

  lemma FlushedNone(s: Side, outcomes: seq<SendOutcome>, data: Response)
    ensures Flushed(s, outcomes, 0, data) == s
  {
    assert s.sent + [] == s.sent && s.reports + ReportAll([], data) == s.reports;
  }

  lemma FlushedMore(s: Side, outcomes: seq<SendOutcome>, n: nat, data: Response)
    requires n < |s.query.writeQueue| && n < |outcomes|
    ensures Flushed(s, outcomes, n, data).query.writeQueue == s.query.writeQueue[n..]
    ensures AfterWrite(Flushed(s, outcomes, n, data), outcomes[n], data) == Flushed(s, outcomes, n + 1, data)
  {
    var queue := s.query.writeQueue;
    var fails := Written(queue, outcomes, n, false);
    assert queue[n..][0] == queue[n] && queue[n..][1..] == queue[n + 1..];
    if outcomes[n].SendOk? {
      AppendMore(s.sent, Written(queue, outcomes, n, true), queue[n]);
      assert Written(queue, outcomes, n + 1, false) == fails;
    } else {
      ReportsMore(s.reports, fails, queue[n], data);
      assert (fails + [queue[n]])[..|fails|] == fails;
      assert ReleaseAll(s.query, fails + [queue[n]]) == Release(ReleaseAll(s.query, fails), Some(queue[n]));
      assert Written(queue, outcomes, n + 1, true) == Written(queue, outcomes, n, true);
    }
  }

  lemma {:induction false} WritesAreFlushed(s: Side, outcomes: seq<SendOutcome>, n: nat, data: Response)
    requires n <= |s.query.writeQueue| && n <= |outcomes|
    ensures AfterWrites(s, outcomes, n, data) == Flushed(s, outcomes, n, data)
    decreases n
  {
    if n == 0 {
      FlushedNone(s, outcomes, data);
    } else {
      WritesAreFlushed(s, outcomes, n - 1, data);
      FlushedMore(s, outcomes, n - 1, data);
    }
  }

  lemma AppendMore(head: seq<Ip>, ips: seq<Ip>, ip: Ip)
    ensures head + ips + [ip] == head + (ips + [ip])
  {
  }

  lemma ReportsMore(head: seq<Report>, ips: seq<Ip>, ip: Ip, data: Response)
    ensures head + ReportAll(ips, data) + [Report(Some(ip), data)] == head + ReportAll(ips + [ip], data)
  {
  }

  /**
    Every write that succeeds is sent; every one that fails is reported, and only those
    addresses are given up: none without a report.
   */
  lemma WritesAccounted(s: Side, outcomes: seq<SendOutcome>, n: nat, data: Response)
    requires TimersAgree(s.query) && n <= |s.query.writeQueue| && n <= |outcomes|
    ensures var oks := Written(s.query.writeQueue, outcomes, n, true);
            var fails := Written(s.query.writeQueue, outcomes, n, false);
            var s' := Flushed(s, outcomes, n, data);
            && s'.sent == s.sent + oks
            && s'.query.writeQueue == s.query.writeQueue[n..]
            && |s'.reports| == |s.reports| + |fails| && s.reports <= s'.reports
            && (forall i :: 0 <= i < |fails| ==> s'.reports[|s.reports| + i] == Report(Some(fails[i]), data))
            && (forall ip :: ip in s'.query.doing <==> ip in s.query.doing && ip !in fails)
            && Accounted(s.query.doing, s'.query.doing, s'.reports[|s.reports|..])
  {
    var fails := Written(s.query.writeQueue, outcomes, n, false);
    var s' := Flushed(s, outcomes, n, data);
    ReleaseAllIs(s.query, fails);
    assert s'.reports[|s.reports|..] == ReportAll(fails, data);
    forall ip | ip in s.query.doing && ip !in s'.query.doing ensures Reported(s'.reports[|s.reports|..], ip) {
      AllReported(fails, data, ip);
    }
  }

  class QueryRuntime {
    var doing: map<Ip, nat>
    const timeouts: DelayQueue<Ip>
    var writeQueue: seq<Ip>

    /** The datagrams the socket has taken, by the address they ask for. */
    var sent: seq<Ip>

    /** The channel to the cache actor. */
    var reports: seq<Report>

    const defaultTtl: nat
    const maximumTtl: nat
    const queryWait: nat
    const maxInstant: Instant

    ghost function View(): (q: QueryState)
      reads this, timeouts
    {
      QueryState(doing, timeouts.timers, writeQueue)
    }

    ghost function Outside(): (s: Side)
      reads this, timeouts
    {
      Side(View(), sent, reports)
    }

    ghost predicate Valid()
      reads this, timeouts
    {
      TimersAgree(View())
    }

    constructor (defaultTtl: nat, maximumTtl: nat, queryWait: nat, maxInstant: Instant)
      ensures Valid() && fresh(timeouts)
      ensures View() == QueryState(map[], map[], []) && reports == [] && sent == []
    {
      this.defaultTtl, this.maximumTtl := defaultTtl, maximumTtl;
      this.queryWait, this.maxInstant := queryWait, maxInstant;
      doing, writeQueue, sent, reports := map[], [], [], [];
      timeouts := new DelayQueue();
    }

    /** An expiry that does not fit the clock degrades to "already due". */
    function Expiry(now: Instant, ttl: nat): (t: Instant)
      ensures now + ttl * 1_000_000_000 <= maxInstant ==> t == now + ttl * 1_000_000_000
      ensures now + ttl * 1_000_000_000 > maxInstant ==> t == now
    {
      if now + ttl * NANOS_PER_SEC > maxInstant then now else now + ttl * NANOS_PER_SEC
    }

    /** The server's TTL, or the default, never above the maximum. */
    function CappedTtl(ttl: Option<nat>): (t: nat)
      ensures t <= maximumTtl
      ensures ttl.Some? ==> t <= ttl.value && (t == ttl.value || t == maximumTtl)
      ensures ttl.None? ==> t <= defaultTtl && (t == defaultTtl || t == maximumTtl)
    {
      var wanted := if ttl.Some? then ttl.value else defaultTtl;
      if wanted < maximumTtl then wanted else maximumTtl
    }

    method SendRspData(ip: Option<Ip>, data: Response)
      requires Valid()
      modifies this`doing, this`reports, timeouts
      ensures Valid() && View() == Release(old(View()), ip)
      ensures doing == old(doing) - (if ip.Some? then {ip.value} else {})
      ensures ip.Some? && ip.value in old(doing) ==> timeouts.timers == old(timeouts.timers) - {old(doing)[ip.value]}
      ensures ip.None? || ip.value !in old(doing) ==> timeouts.timers == old(timeouts.timers)
      ensures reports == old(reports) + [Report(ip, data)]
    {
      ReleaseKeeps(View(), ip);
      if ip.Some? && ip.value in doing {
        timeouts.Remove(doing[ip.value]);
        doing := doing - {ip.value};
      } else {
        assert doing - (if ip.Some? then {ip.value} else {}) == doing;
      }
      reports := reports + [Report(ip, data)];
    }

    method ShouldSendRawQuery(ip: Ip, deadline: Instant) returns (send: bool, key: nat)
      requires Valid()
      modifies this`doing, timeouts
      ensures Valid()
      ensures send <==> ip !in old(doing)
      ensures !send ==> doing == old(doing) && timeouts.timers == old(timeouts.timers)
      ensures send ==> key !in old(timeouts.timers)
      ensures send ==>
                && doing == old(doing)[ip := key]
                && timeouts.timers == old(timeouts.timers)[key := Timer(deadline, ip)]
    {
      if ip in doing {
        send, key := false, 0;
      } else {
        send := true;
        key := timeouts.InsertAt(ip, deadline);
        doing := doing[ip := key];
      }
    }

    method HandleReq(ip: Ip, now: Instant, encodes: bool) returns (ghost key: nat)
      requires Valid()
      modifies this, timeouts
      ensures Valid()
      ensures key !in old(timeouts.timers) || ip in old(doing)
      ensures View() == Admit(old(View()), ip, key, now + queryWait, encodes)
      ensures var admitted := encodes && ip !in old(doing);
              && doing == (if admitted then old(doing)[ip := key] else old(doing))
              && timeouts.timers == (if admitted then old(timeouts.timers)[key := Timer(now + queryWait, ip)]
                                     else old(timeouts.timers))
              && writeQueue == old(writeQueue) + if admitted then [ip] else []
      ensures sent == old(sent)
      ensures reports == old(reports) + if encodes || ip in old(doing) then []
                                        else [Report(Some(ip), Response(None, Expiry(now, defaultTtl)))]
    {
      ghost var before := View();
      var send, k := ShouldSendRawQuery(ip, now + queryWait);
      key := k;
      AdmitKeepsUnsent(before, ip, key, now + queryWait);
      if send {
        if encodes {
          writeQueue := writeQueue + [ip];
        } else {
          SendRspData(Some(ip), Response(None, Expiry(now, defaultTtl)));
        }
      }
    }

    /** A datagram, solicited or not. What cannot be parsed is ignored. */
    method HandleRsp(datagram: Datagram, now: Instant)
      requires Valid()
      modifies this`doing, this`reports, timeouts
      ensures Valid()
      ensures datagram.Garbage? ==> View() == old(View()) && reports == old(reports)
      ensures datagram.Parsed? ==>
                && View() == Release(old(View()), datagram.ip)
                && reports == old(reports) + [Report(datagram.ip,
                                Response(datagram.location, Expiry(now, CappedTtl(datagram.ttl))))]
    {
      if datagram.Parsed? {
        var ttl := CappedTtl(datagram.ttl);
        if datagram.location.Some? {
          SendRspData(datagram.ip, Response(datagram.location, Expiry(now, ttl)));
        } else if datagram.ip.Some? {
          SendRspData(datagram.ip, Response(None, Expiry(now, ttl)));
        } else {
          SendRspData(None, Response(None, Expiry(now, ttl)));
        }
      }
    }

    /** Sends the first queued datagram; a failed send is reported as an empty answer. */
    method WriteOne(outcome: SendOutcome, data: Response)
      requires Valid() && writeQueue != []
      modifies this`doing, this`reports, this`writeQueue, this`sent, timeouts
      ensures Valid() && Outside() == AfterWrite(old(Outside()), outcome, data)
    {
      var ip := writeQueue[0];
      writeQueue := writeQueue[1..];
      if outcome.SendOk? {
        sent := sent + [ip];
      } else {
        SendRspData(Some(ip), data);
      }
    }

    /** Sends queued datagrams until the socket blocks. */
    method FlushWrites(outcomes: seq<SendOutcome>, now: Instant) returns (n: nat)
      requires Valid()
      modifies this`doing, this`reports, this`writeQueue, this`sent, timeouts
      ensures n == if |outcomes| < |old(writeQueue)| then |outcomes| else |old(writeQueue)|
      ensures Valid() && writeQueue == old(writeQueue)[n..]
      ensures Outside() == Flushed(old(Outside()), outcomes, n, Response(None, Expiry(now, defaultTtl)))
    {
      ghost var s := Outside();
      var data := Response(None, Expiry(now, defaultTtl));
      n := 0;
      while n < |outcomes| && writeQueue != []
        invariant n <= |outcomes| && n <= |s.query.writeQueue|
        invariant Valid() && Outside() == AfterWrites(s, outcomes, n, data)
      {
        WriteOne(outcomes[n], data);
        n := n + 1;
      }
      WritesAreFlushed(s, outcomes, n, data);
    }

    /** One round of the timeout loop. */
    method TimeoutOne(now: Instant) returns (fired: Option<nat>)
      requires Valid()
      modifies this`doing, this`reports, timeouts
      ensures Valid()
      ensures fired.None? ==> View() == old(View()) && reports == old(reports)
      ensures fired.None? ==> forall k :: k in timeouts.timers ==> timeouts.timers[k].deadline > now
      ensures fired.Some? ==>
                && fired.value in old(timeouts.timers)
                && old(timeouts.timers)[fired.value].deadline <= now
                && |timeouts.timers| < |old(timeouts.timers)|
                && View() == Fire(old(View()), fired.value)
                && doing == old(doing) - {old(timeouts.timers)[fired.value].item}
                && timeouts.timers == old(timeouts.timers) - {fired.value}
                && reports == old(reports) + [Report(Some(old(timeouts.timers)[fired.value].item),
                                                     Response(None, Expiry(now, defaultTtl)))]
    {
      ghost var before := View();
      var key, ip := timeouts.PollExpired(now);
      fired := key;
      if key.Some? {
        FireKeeps(before, key.value);
        doing := doing - {ip.value};
        reports := reports + [Report(ip, Response(None, Expiry(now, defaultTtl)))];
      }
    }

    /** The timeout loop releases and reports exactly what is due. */
    method DrainTimeouts(now: Instant)
      requires Valid()
      modifies this`doing, this`reports, timeouts
      ensures Valid() && writeQueue == old(writeQueue)
      ensures forall ip :: ip in old(doing) && old(timeouts.timers)[old(doing)[ip]].deadline > now ==> ip in doing
      ensures forall ip :: ip in doing ==>
                && timeouts.timers[doing[ip]].deadline > now
                && ip in old(doing) && doing[ip] == old(doing)[ip]
      ensures old(reports) <= reports && |reports| - |old(reports)| == |old(doing)| - |doing|
      ensures Accounted(old(doing), doing, reports[|old(reports)|..])
    {
      var fired: Option<nat> := Some(0);
      while fired.Some?
        invariant Valid() && writeQueue == old(writeQueue)
        invariant fired.None? ==> forall k :: k in timeouts.timers ==> timeouts.timers[k].deadline > now
        invariant forall ip :: ip in doing ==> ip in old(doing) && doing[ip] == old(doing)[ip]
        invariant forall k :: k in timeouts.timers ==>
                    k in old(timeouts.timers) && timeouts.timers[k] == old(timeouts.timers)[k]
        invariant forall k :: k in old(timeouts.timers) && old(timeouts.timers)[k].deadline > now ==>
                    k in timeouts.timers
        invariant old(reports) <= reports && |reports| - |old(reports)| == |old(doing)| - |doing|
        invariant Accounted(old(doing), doing, reports[|old(reports)|..])
        decreases |timeouts.timers|, fired.Some?
      {
        ghost var was, reported, timers := doing, reports, timeouts.timers;
        fired := TimeoutOne(now);
        if fired.Some? {
          ghost var ip, data := timers[fired.value].item, Response(None, Expiry(now, defaultTtl));
          AccountedStep(old(doing), was, reported[|old(reports)|..], ip, data);
          NewsStep(old(reports), reported, Report(Some(ip), data));
        }
      }
    }
  }
}

/**
  The two location actors and the two channels between them, as interleaved steps.
  Each step is the specification of one handler of `CacheRuntime` or `QueryRuntime`;
  datagrams are arbitrary, so late, repeated and unsolicited ones are included, and
  a timer may fire in any order.
 */
module IpLocateSystem {
  import opened Options
  import opened Bags
  import opened DelayQueues
  import opened IpNetworks
  import opened GeoLocate
  import opened IpLocateCache
  import opened IpLocateQuery

  /** What the query actor has done about an address: taken it on, or sent its datagram. */
  datatype Mark = Admitted(ip: Ip) | Datagram(ip: Ip)

  datatype Sys = Sys(cache: CacheState, queries: seq<Ip>, query: QueryState, reports: seq<Report>, log: seq<Mark>)

  datatype Action =
    | Ask(req: Request, now: Instant)
    | TakeReport
    | TakeQuery(key: nat, deadline: Instant, encodes: bool, expireAt: Instant)
    | Receive(ip: Option<Ip>, rsp: Response)
    | Write(sent: bool, expireAt: Instant)
    | Timeout(key: nat, expireAt: Instant)

  predicate Enabled(s: Sys, a: Action) {
    match a
    case Ask(_, _) => true
    case TakeReport => s.reports != []
    case TakeQuery(key, _, _, _) => s.queries != [] && key !in s.query.timers
    case Receive(_, _) => true
    case Write(_, _) => s.query.writeQueue != []
    case Timeout(key, _) => key in s.query.timers
  }

  function NoData(ip: Ip, expireAt: Instant): (r: Report) {
    Report(Some(ip), Response(None, expireAt))
  }

  function Step(s: Sys, a: Action): (r: Sys)
    requires Enabled(s, a)
  {
    match a
    case Ask(req, now) =>
      s.(cache := OnRequest(s.cache, req, now), queries := s.queries + QueriesOf(s.cache, req, now))
    case TakeReport =>
      s.(cache := OnResponse(s.cache, s.reports[0].ip, s.reports[0].rsp), reports := s.reports[1..])
    case TakeQuery(key, deadline, encodes, expireAt) =>
      var ip := s.queries[0];
      s.(queries := s.queries[1..],
         query := Admit(s.query, ip, key, deadline, encodes),
         reports := s.reports + (if encodes || ip in s.query.doing then [] else [NoData(ip, expireAt)]),
         log := s.log + if encodes && ip !in s.query.doing then [Admitted(ip)] else [])
    case Receive(ip, rsp) =>
      s.(query := Release(s.query, ip), reports := s.reports + [Report(ip, rsp)])
    case Write(sent, expireAt) =>
      var ip, rest := s.query.writeQueue[0], s.query.(writeQueue := s.query.writeQueue[1..]);
      if sent then s.(query := rest, log := s.log + [Datagram(ip)])
      else s.(query := Release(rest, Some(ip)), reports := s.reports + [NoData(ip, expireAt)])
    case Timeout(key, expireAt) =>
      s.(query := Fire(s.query, key), reports := s.reports + [NoData(s.query.timers[key].item, expireAt)])
  }

  const INITIAL := Sys(CacheState(map[], map[], []), [], QueryState(map[], map[], []), [], [])

  /** `s` is where the system stands after `actions`, each possible when it was taken. */
  ghost predicate Reaches(actions: seq<Action>, s: Sys)
    decreases |actions|
  {
    if actions == [] then s == INITIAL
    else exists prior :: ReachesBy(actions, prior, s)
  }

  ghost predicate ReachesBy(actions: seq<Action>, prior: Sys, s: Sys)
    requires actions != []
    decreases |actions|, 0
  {
    var last := actions[|actions| - 1];
    Reaches(actions[..|actions| - 1], prior) && Enabled(prior, last) && s == Step(prior, last)
  }

  // ---------------------------------------------------------------------------
  // Nobody is stranded

  /** Somebody will still speak for this address. */
  ghost predicate Covered(s: Sys, ip: Ip) {
    ip in s.queries || ip in s.query.doing || Reported(s.reports, ip)
  }

  ghost predicate Inv(s: Sys) {
    && Sane(s.cache)
    && TimersAgree(s.query)
    && forall ip :: ip in s.cache.doing ==> Covered(s, ip)
  }

  lemma ReportedTail(reports: seq<Report>, ip: Ip)
    requires reports != []
    ensures Reported(reports, ip) <==> reports[0].ip == Some(ip) || Reported(reports[1..], ip)
  {
  }

  lemma ReportedOne(r: Report, ip: Ip)
    ensures Reported([r], ip) <==> r.ip == Some(ip)
  {
    assert [r][0] == r;
  }

  /** An address that is spoken for stays so, until the cache actor takes the report on it. */
  lemma StepCovers(s: Sys, a: Action, ip: Ip)
    requires Enabled(s, a) && TimersAgree(s.query) && Covered(s, ip)
    ensures Covered(Step(s, a), ip) || (a.TakeReport? && s.reports[0].ip == Some(ip))
  {
    var s' := Step(s, a);
    match a {
      case Ask(req, now) =>
      case TakeReport => ReportedTail(s.reports, ip);
      case TakeQuery(key, deadline, encodes, expireAt) =>
        assert s.queries == [s.queries[0]] + s.queries[1..];
        assert s.reports + [] == s.reports;
        AdmitKeeps(s.query, s.queries[0], key, deadline, encodes);
        ReportedAppend(s.reports, [NoData(s.queries[0], expireAt)], ip);
        ReportedOne(NoData(s.queries[0], expireAt), ip);
      case Receive(x, rsp) =>
        ReportedAppend(s.reports, [Report(x, rsp)], ip);
        ReportedOne(Report(x, rsp), ip);
      case Write(sent, expireAt) =>
        ReportedAppend(s.reports, [NoData(s.query.writeQueue[0], expireAt)], ip);
        ReportedOne(NoData(s.query.writeQueue[0], expireAt), ip);
      case Timeout(key, expireAt) =>
        ReportedAppend(s.reports, [NoData(s.query.timers[key].item, expireAt)], ip);
        ReportedOne(NoData(s.query.timers[key].item, expireAt), ip);
    }
  }

  lemma StepKeepsParts(s: Sys, a: Action)
    requires Enabled(s, a) && Sane(s.cache) && TimersAgree(s.query)
    ensures Sane(Step(s, a).cache) && TimersAgree(Step(s, a).query)
  {
    match a {
      case Ask(req, now) => RequestKeepsSane(s.cache, req, now);
      case TakeReport => ResponseKeepsSane(s.cache, s.reports[0].ip, s.reports[0].rsp);
      case TakeQuery(key, deadline, encodes, _) => AdmitKeeps(s.query, s.queries[0], key, deadline, encodes);
      case Receive(ip, _) => ReleaseKeeps(s.query, ip);
      case Write(sent, _) =>
        var rest := s.query.(writeQueue := s.query.writeQueue[1..]);
        ReleaseKeeps(rest, Some(s.query.writeQueue[0]));
      case Timeout(key, _) => FireKeeps(s.query, key);
    }
  }

  lemma StepKeepsInv(s: Sys, a: Action)
    requires Inv(s) && Enabled(s, a)
    ensures Inv(Step(s, a))
  {
    StepKeepsParts(s, a);
    var s' := Step(s, a);
    forall ip | ip in s'.cache.doing ensures Covered(s', ip) {
      if ip in s.cache.doing {
        StepCovers(s, a, ip);
      } else {
        assert a.Ask? && s'.queries == s.queries + [ip];
      }
    }
  }

  /**
    Over every run: each address with waiters is in the query channel, outstanding with
    a live timer, or reported on and about to be handled; both tables of the query actor
    agree; and every location ever sent lies around the address it was sent to.
   */
  lemma {:induction false} NoWaiterStranded(actions: seq<Action>, s: Sys)
    requires Reaches(actions, s)
    ensures Inv(s)
    decreases |actions|
  {
    if actions != [] {
      var prior :| ReachesBy(actions, prior, s);
      NoWaiterStranded(actions[..|actions| - 1], prior);
      StepKeepsInv(prior, actions[|actions| - 1]);
    }
  }

  /** So once the channels and the outstanding table are empty, nobody waits. */
  lemma QuietMeansServed(actions: seq<Action>, s: Sys)
    requires Reaches(actions, s)
    requires s.queries == [] && s.query.doing == map[]
    requires forall i :: 0 <= i < |s.reports| ==> s.reports[i].ip.None?
    ensures s.cache.doing == map[]
  {
    NoWaiterStranded(actions, s);
    assert forall ip :: !Covered(s, ip);
  }

  // ---------------------------------------------------------------------------
  // What is outstanding has been asked

  /** A datagram for the address was sent, and the address has not been taken on anew since. */
  predicate SentSince(log: seq<Mark>, ip: Ip) {
    log != [] &&
    var last := log[|log| - 1];
    last == Datagram(ip) || (last != Admitted(ip) && SentSince(log[..|log| - 1], ip))
  }

  lemma SentSinceMore(log: seq<Mark>, m: Mark, ip: Ip)
    ensures SentSince(log + [m], ip) <==> m == Datagram(ip) || (m != Admitted(ip) && SentSince(log, ip))
  {
    assert (log + [m])[..|log|] == log;
  }

  /** In terms of the log itself: there is a datagram with no admission behind it. */
  lemma {:induction false} SentSinceIs(log: seq<Mark>, ip: Ip)
    ensures SentSince(log, ip) <==>
              exists j :: 0 <= j < |log| && log[j] == Datagram(ip) && Admitted(ip) !in log[j..]
  {
    if log != [] {
      var n := |log| - 1;
      SentSinceIs(log[..n], ip);
      forall j | 0 <= j < n ensures log[..n][j..] + [log[n]] == log[j..] {}
      if SentSince(log, ip) && log[n] != Datagram(ip) {
        var j :| 0 <= j < n && log[..n][j] == Datagram(ip) && Admitted(ip) !in log[..n][j..];
        assert log[j..] == log[..n][j..] + [log[n]];
      } else if SentSince(log, ip) {
        assert log[n..] == [log[n]];
      }
      if j :| 0 <= j < |log| && log[j] == Datagram(ip) && Admitted(ip) !in log[j..] {
        if j < n {
          assert log[j..] == log[..n][j..] + [log[n]];
          assert log[n] in log[j..];
        }
      }
    }
  }

  ghost predicate Asking(s: Sys) {
    forall ip :: ip in s.query.doing ==> ip in s.query.writeQueue || SentSince(s.log, ip)
  }

  lemma StepKeepsAsking(s: Sys, a: Action)
    requires Enabled(s, a) && Asking(s)
    ensures Asking(Step(s, a))
  {
    var s' := Step(s, a);
    forall ip | ip in s'.query.doing ensures ip in s'.query.writeQueue || SentSince(s'.log, ip) {
      match a {
        case TakeQuery(key, deadline, encodes, expireAt) =>
          SentSinceMore(s.log, Admitted(s.queries[0]), ip);
          assert s.log + [] == s.log;
        case Write(sent, expireAt) =>
          SentSinceMore(s.log, Datagram(s.query.writeQueue[0]), ip);
          assert s.query.writeQueue == [s.query.writeQueue[0]] + s.query.writeQueue[1..];
        case _ =>
      }
    }
  }

  /**
    Over every run, an outstanding address is in the write queue, or its datagram has been
    sent since it was taken on.
   */
  lemma {:induction false} OutstandingIsAsked(actions: seq<Action>, s: Sys)
    requires Reaches(actions, s)
    ensures Asking(s)
    decreases |actions|
  {
    if actions != [] {
      var prior :| ReachesBy(actions, prior, s);
      OutstandingIsAsked(actions[..|actions| - 1], prior);
      StepKeepsAsking(prior, actions[|actions| - 1]);
    }
  }

  // ---------------------------------------------------------------------------
  // Every request is told once, or waits

  function Asked(actions: seq<Action>): (rs: seq<Request>) {
    if actions == [] then []
    else
      var last := actions[|actions| - 1];
      Asked(actions[..|actions| - 1]) + if last.Ask? then [last.req] else []
  }

  lemma StepConserves(s: Sys, a: Action, x: Request)
    requires Enabled(s, a)
    ensures var s' := Step(s, a);
            multiset(Notified(s'.cache.notices))[x] + Bag(s'.cache.doing)[x]
            == multiset(Notified(s.cache.notices))[x] + Bag(s.cache.doing)[x] + if a.Ask? && a.req == x then 1 else 0
  {
    match a {
      case Ask(req, now) => RequestBalance(s.cache, req, now, x);
      case TakeReport => ResponseBalance(s.cache, s.reports[0].ip, s.reports[0].rsp, x);
      case _ =>
    }
  }

  lemma {:induction false} RequestsConserved(actions: seq<Action>, s: Sys, x: Request)
    requires Reaches(actions, s)
    ensures multiset(Asked(actions))[x] == multiset(Notified(s.cache.notices))[x] + Bag(s.cache.doing)[x]
    decreases |actions|
  {
    if actions != [] {
      var prior :| ReachesBy(actions, prior, s);
      RequestsConserved(actions[..|actions| - 1], prior, x);
      StepConserves(prior, actions[|actions| - 1], x);
    }
  }

  // ---------------------------------------------------------------------------
  // Left to itself, the system serves everybody

  /** The steps the two actors take on their own, without a new request or a datagram. */
  predicate Internal(a: Action) {
    !a.Ask? && !a.Receive?
  }

  /** What is left to do, most significant first. */
  ghost function Backlog(s: Sys): (t: (nat, nat, nat, nat)) {
    (|s.queries|, |s.query.writeQueue|, |s.query.timers|, |s.reports|)
  }

  ghost predicate Less(a: (nat, nat, nat, nat), b: (nat, nat, nat, nat)) {
    || a.0 < b.0
    || (a.0 == b.0 && a.1 < b.1)
    || (a.0 == b.0 && a.1 == b.1 && a.2 < b.2)
    || (a.0 == b.0 && a.1 == b.1 && a.2 == b.2 && a.3 < b.3)
  }

  /** Every internal step makes the backlog smaller, so internal runs are finite. */
  lemma InternalStepsEnd(s: Sys, a: Action)
    requires Enabled(s, a) && Internal(a) && TimersAgree(s.query)
    ensures Less(Backlog(Step(s, a)), Backlog(s))
  {
    if a.Write? {
      var rest := s.query.(writeQueue := s.query.writeQueue[1..]);
      var ip := s.query.writeQueue[0];
      assert ip in rest.doing ==> |rest.timers - {rest.doing[ip]}| < |rest.timers|;
    }
  }

  /** And while somebody waits, there is an internal step to take. */
  lemma WaitingMeansWork(s: Sys) returns (a: Action)
    requires Inv(s) && s.cache.doing != map[]
    ensures Enabled(s, a) && Internal(a)
  {
    if s.queries != [] {
      FreshKey(s.query.timers);
      var key: nat :| key !in s.query.timers;
      a := TakeQuery(key, 0, true, 0);
    } else if s.reports != [] {
      a := TakeReport;
    } else {
      var ip :| ip in s.cache.doing;
      assert Covered(s, ip);
      a := Timeout(s.query.doing[ip], 0);
    }
  }

  ghost predicate Runs(s: Sys, actions: seq<Action>, t: Sys)
    decreases |actions|
  {
    if actions == [] then s == t
    else Enabled(s, actions[0]) && Runs(Step(s, actions[0]), actions[1..], t)
  }

  ghost predicate AllInternal(actions: seq<Action>) {
    forall i :: 0 <= i < |actions| ==> Internal(actions[i])
  }

  /**
    Whatever internal steps are taken, in whatever order: when the actors can take no more
    of them, nobody waits. By `InternalStepsEnd` they always come to that point.
   */
  lemma {:induction false} RestMeansServed(s: Sys, actions: seq<Action>, t: Sys)
    requires Inv(s) && Runs(s, actions, t) && AllInternal(actions)
    requires forall a :: Internal(a) ==> !Enabled(t, a)
    ensures Inv(t) && t.cache.doing == map[]
    decreases |actions|
  {
    if actions != [] {
      StepKeepsInv(s, actions[0]);
      RestMeansServed(Step(s, actions[0]), actions[1..], t);
    } else if s.cache.doing != map[] {
      var a := WaitingMeansWork(s);
    }
  }

  /** From every reachable state there is such a run to a state where nobody waits. */
  lemma {:induction false} Settles(s: Sys) returns (actions: seq<Action>, t: Sys)
    requires Inv(s)
    ensures Runs(s, actions, t) && t.cache.doing == map[]
    ensures AllInternal(actions)
    decreases |s.queries|, |s.query.writeQueue|, |s.query.timers|, |s.reports|
  {
    if s.cache.doing == map[] {
      actions, t := [], s;
    } else {
      var a := WaitingMeansWork(s);
      StepKeepsInv(s, a);
      InternalStepsEnd(s, a);
      var rest;
      rest, t := Settles(Step(s, a));
      actions := [a] + rest;
      assert actions[1..] == rest;
    }
  }
}

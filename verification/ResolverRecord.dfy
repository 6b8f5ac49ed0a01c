/**
  Resolved records and their lifetime arithmetic. Instants are nanosecond counts
  bounded by the platform's largest representable instant; TTLs are 32-bit.
 */
module ResolverRecords {
  import opened Basics
  import opened Options

  type Instant = nat
  type Domain = string

  datatype ServerError = FormErr | ServFail | NotFound | NotImp | Refused | Other(code: nat)

  datatype ResolveError =
    | EmptyDomain
    | EmptyResult
    | InvalidRedirectionDomain
    | NoResolverSet
    | NoResolverRunning
    | RequestTimeout
    | ServerFailure(code: ServerError)
    | DriverError(reason: string)
    | DriverTimeout

  datatype Answer = Ok(ips: seq<string>) | Err(error: ResolveError)

  datatype Record = Record(
    domain: Domain,
    created: Instant,
    expire: Option<Instant>,
    vanish: Option<Instant>,
    result: Answer)
  {
    predicate IsExpired(now: Instant) {
      expire.Some? ==> now >= expire.value
    }

    predicate IsAcceptable() {
      result.Ok? || result.error == ServerFailure(NotFound)
    }
  }

  function SaturatingAdd(a: U32, b: U32): (r: U32) {
    if a + b > U32_MAX then U32_MAX else a + b
  }

  function CheckedAdd(at: Instant, secs: nat, maxInstant: Instant): (r: Option<Instant>) {
    var t := at + secs * NANOS_PER_SEC;
    if t > maxInstant then None else Some(t)
  }

  /** The expire and vanish TTLs of a successful answer. */
  function Ttls(ttl: U32, minTtl: U32, maxTtl: U32): (r: (U32, U32)) {
    if ttl > SaturatingAdd(maxTtl, minTtl) then (maxTtl, ttl)
    else if ttl > SaturatingAdd(minTtl, minTtl) then (ttl - minTtl, ttl)
    else if ttl > minTtl then (minTtl, ttl)
    else (minTtl, SaturatingAdd(minTtl, 1))
  }

  /**
    What every constructor guarantees: only a successful answer may outlive its
    expiry, and then it vanishes no earlier than it expires.
   */
  predicate WellBuilt(r: Record) {
    r.vanish.Some? ==> r.result.Ok? && r.expire.Some? && r.expire.value <= r.vanish.value
  }

  function Resolved(domain: Domain, now: Instant, maxInstant: Instant,
                    ttl: U32, minTtl: U32, maxTtl: U32, ips: seq<string>): (r: Record)
    ensures WellBuilt(r)
    ensures r.domain == domain && r.created == now && r.result == Ok(ips)
    ensures var secs: int := if minTtl <= maxTtl then Clamp(ttl - minTtl, minTtl, maxTtl)
                             else if ttl > minTtl + maxTtl then maxTtl else minTtl;
            r.expire == if now + secs * 1_000_000_000 <= maxInstant then Some(now + secs * 1_000_000_000) else None
    ensures var secs := if ttl > minTtl then ttl else if minTtl == 0xFFFF_FFFF then minTtl else minTtl + 1;
            r.vanish == if now + secs * 1_000_000_000 <= maxInstant then Some(now + secs * 1_000_000_000) else None
  {
    VanishNotBeforeExpire(ttl, minTtl, maxTtl);
    TtlWhenUnordered(ttl, minTtl, maxTtl);
    TtlIsClamp(ttl, minTtl, maxTtl);
    var (e, v) := Ttls(ttl, minTtl, maxTtl);
    Record(domain, now, CheckedAdd(now, e, maxInstant), CheckedAdd(now, v, maxInstant), Ok(ips))
  }

  function Empty(domain: Domain, now: Instant, maxInstant: Instant, expireTtl: U32): (r: Record)
    ensures WellBuilt(r) && r.IsAcceptable() && r.vanish.None?
    ensures r.domain == domain && r.created == now && r.result == Ok([])
    ensures r.expire == if now + expireTtl * 1_000_000_000 <= maxInstant
                        then Some(now + expireTtl * 1_000_000_000) else None
  {
    Record(domain, now, CheckedAdd(now, expireTtl, maxInstant), None, Ok([]))
  }

  function Failed(domain: Domain, now: Instant, maxInstant: Instant,
                  protectiveTtl: U32, error: ResolveError): (r: Record)
    ensures WellBuilt(r) && r.vanish.None?
    ensures r.IsAcceptable() <==> error == ServerFailure(NotFound)
    ensures r.domain == domain && r.created == now && r.result == Err(error)
    ensures r.expire == if now + protectiveTtl * 1_000_000_000 <= maxInstant
                        then Some(now + protectiveTtl * 1_000_000_000) else None
  {
    Record(domain, now, CheckedAdd(now, protectiveTtl, maxInstant), None, Err(error))
  }

  function TimedOut(domain: Domain, now: Instant, maxInstant: Instant, protectiveTtl: U32): (r: Record)
    ensures WellBuilt(r) && !r.IsAcceptable() && r.vanish.None?
    ensures r.domain == domain && r.created == now && r.result == Err(RequestTimeout)
    ensures r.expire == if now + protectiveTtl * 1_000_000_000 <= maxInstant
                        then Some(now + protectiveTtl * 1_000_000_000) else None
  {
    Failed(domain, now, maxInstant, protectiveTtl, RequestTimeout)
  }

  function Clamp(x: int, lo: int, hi: int): (r: int)
    requires lo <= hi
    ensures lo <= r <= hi
    ensures x < lo ==> r == lo
    ensures x > hi ==> r == hi
    ensures lo <= x <= hi ==> r == x
  {
    if x < lo then lo else if x > hi then hi else x
  }

  /**
    The vanish TTL is the upstream TTL, or just above the minimum if that is longer.
    Saturation never lets it fall below the expire TTL; they meet only at the top or
    without a minimum.
   */
  lemma VanishNotBeforeExpire(ttl: U32, minTtl: U32, maxTtl: U32)
    ensures Ttls(ttl, minTtl, maxTtl).1 == if ttl > minTtl then ttl else SaturatingAdd(minTtl, 1)
    ensures Ttls(ttl, minTtl, maxTtl).0 <= Ttls(ttl, minTtl, maxTtl).1
    ensures Ttls(ttl, minTtl, maxTtl).0 == Ttls(ttl, minTtl, maxTtl).1
            <==> (minTtl == U32_MAX || (minTtl == 0 < ttl <= maxTtl))
  {
  }

  /** With ordered bounds the four-way case split is a clamp. */
  lemma TtlIsClamp(ttl: U32, minTtl: U32, maxTtl: U32)
    ensures minTtl <= maxTtl ==> Ttls(ttl, minTtl, maxTtl).0 == Clamp(ttl - minTtl, minTtl, maxTtl)
  {
  }

  /** Otherwise it jumps from the minimum down to the maximum. */
  lemma TtlWhenUnordered(ttl: U32, minTtl: U32, maxTtl: U32)
    ensures minTtl > maxTtl ==> Ttls(ttl, minTtl, maxTtl).0 == if ttl > minTtl + maxTtl then maxTtl else minTtl
  {
  }

  ghost predicate ExpireTtlMonotone(minTtl: U32, maxTtl: U32) {
    forall a: U32, b: U32 :: a <= b ==> Ttls(a, minTtl, maxTtl).0 <= Ttls(b, minTtl, maxTtl).0
  }

  /**
    A longer upstream TTL never shortens the cache time, exactly when the bounds
    are ordered or their sum is out of reach of a 32-bit TTL.
   */
  lemma TtlMonotoneIff(minTtl: U32, maxTtl: U32)
    ensures ExpireTtlMonotone(minTtl, maxTtl) <==> (minTtl <= maxTtl || minTtl + maxTtl >= U32_MAX)
  {
    if minTtl > maxTtl && minTtl + maxTtl < U32_MAX {
      var a: U32, b: U32 := minTtl + maxTtl, minTtl + maxTtl + 1;
      assert Ttls(a, minTtl, maxTtl).0 == minTtl;
      assert Ttls(b, minTtl, maxTtl).0 == maxTtl;
    }
  }
}

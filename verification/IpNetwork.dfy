/**
  Addresses, networks and the longest-prefix-match table. An address is its bit
  string (32 or 128 bits); a network is the prefix all its addresses share, so
  containment is the prefix order and the netmask is the prefix length.
 */
module IpNetworks {
  import opened Options

  function Width(v6: bool): (w: nat) { if v6 then 128 else 32 }

  datatype Address = Address(v6: bool, bits: seq<bool>)
  type Ip = a: Address | |a.bits| == Width(a.v6) witness Address(false, seq(32, _ => false))

  datatype Network = Network(v6: bool, prefix: seq<bool>) {
    function Netmask(): (n: nat) { |prefix| }
  }
  type Net = n: Network | |n.prefix| <= Width(n.v6) witness Network(false, [])

  predicate Contains(net: Net, ip: Ip) {
    net.v6 == ip.v6 && net.prefix <= ip.bits
  }

  /** Two networks around one address are nested; with equal masks they are the same. */
  lemma Nested(a: Net, b: Net, ip: Ip)
    requires Contains(a, ip) && Contains(b, ip) && a.Netmask() <= b.Netmask()
    ensures a.prefix <= b.prefix
    ensures a.Netmask() == b.Netmask() ==> a == b
    ensures forall other: Ip :: Contains(b, other) ==> Contains(a, other)
  {
  }

  /** The table's lookup: the longest stored prefix of the address, tried from the full length down. */
  function MatchFrom<V>(table: map<Net, V>, ip: Ip, len: nat): (r: Option<Net>)
    requires len <= Width(ip.v6)
    ensures r.Some? ==> r.value in table && Contains(r.value, ip) && r.value.Netmask() <= len
    ensures forall n :: n in table && Contains(n, ip) && n.Netmask() <= len ==>
              r.Some? && n.Netmask() <= r.value.Netmask()
  {
    var net := Network(ip.v6, ip.bits[..len]);
    if net in table then Some(net)
    else if len == 0 then None
    else
      var r := MatchFrom(table, ip, len - 1);
      assert forall n: Net :: Contains(n, ip) && n.Netmask() == len ==> n == net;
      r
  }

  function LongestMatch<V>(table: map<Net, V>, ip: Ip): (r: Option<Net>)
    ensures r.Some? ==> r.value in table && Contains(r.value, ip)
    ensures forall n :: n in table && Contains(n, ip) ==> r.Some? && n.Netmask() <= r.value.Netmask()
  {
    MatchFrom(table, ip, Width(ip.v6))
  }

  /** The lookup is pinned down by what it must be: a longest entry around the address. */
  lemma LongestMatchIs<V>(table: map<Net, V>, ip: Ip, net: Net)
    requires net in table && Contains(net, ip)
    requires forall n :: n in table && Contains(n, ip) ==> n.Netmask() <= net.Netmask()
    ensures LongestMatch(table, ip) == Some(net)
  {
    Nested(net, LongestMatch(table, ip).value, ip);
  }

  /** Tables that agree around an address answer it alike. */
  lemma LongestMatchSame<V>(table: map<Net, V>, table': map<Net, V>, ip: Ip)
    requires forall n: Net :: Contains(n, ip) ==> (n in table <==> n in table')
    ensures LongestMatch(table', ip) == LongestMatch(table, ip)
  {
    var r := LongestMatch(table, ip);
    if r.Some? {
      LongestMatchIs(table', ip, r.value);
    }
  }

  // ---------------------------------------------------------------------------
  // Storing a location that was queried for one address

  predicate Shadows(n: Net, ip: Ip, net: Net) {
    Contains(n, ip) && n.Netmask() > net.Netmask()
  }

  /** The table without the longer prefixes around `ip`, plus `net`. */
  function Stored<V>(table: map<Net, V>, ip: Option<Ip>, net: Net, v: V): (r: map<Net, V>) {
    var kept := if ip.Some? then map n | n in table && !Shadows(n, ip.value, net) :: table[n] else table;
    kept[net := v]
  }

  /**
    The exact effect on lookups of storing `net` for a queried address it contains:
    the address now finds `net`; an address outside `net` finds what it found before;
    an address inside `net` keeps its old match exactly when that match is longer than
    `net` and does not contain the queried address, and finds `net` otherwise.
   */
  lemma StoredLookup<V>(table: map<Net, V>, ip: Ip, net: Net, v: V, a: Ip)
    requires Contains(net, ip)
    ensures LongestMatch(Stored(table, Some(ip), net, v), ip) == Some(net)
    ensures !Contains(net, a) ==>
              && LongestMatch(Stored(table, Some(ip), net, v), a) == LongestMatch(table, a)
              && (LongestMatch(table, a).Some? ==>
                    Stored(table, Some(ip), net, v)[LongestMatch(table, a).value]
                    == table[LongestMatch(table, a).value])
    ensures Contains(net, a) ==>
              var was := LongestMatch(table, a);
              LongestMatch(Stored(table, Some(ip), net, v), a)
              == if was.Some? && was.value.Netmask() > net.Netmask() && !Contains(was.value, ip) then was else Some(net)
  {
    var table' := Stored(table, Some(ip), net, v);
    LongestMatchIs(table', ip, net);
    if Contains(net, a) {
      StoredInside(table, ip, net, v, a);
    } else {
      forall n: Net | Contains(n, a) ensures n in table <==> n in table' {
        if Shadows(n, ip, net) { Nested(net, n, ip); }
      }
      LongestMatchSame(table, table', a);
      if LongestMatch(table, a).Some? {
        assert LongestMatch(table, a).value != net;
      }
    }
  }

  lemma StoredInside<V>(table: map<Net, V>, ip: Ip, net: Net, v: V, a: Ip)
    requires Contains(net, ip) && Contains(net, a)
    ensures var was := LongestMatch(table, a);
            LongestMatch(Stored(table, Some(ip), net, v), a)
            == if was.Some? && was.value.Netmask() > net.Netmask() && !Contains(was.value, ip) then was else Some(net)
  {
    var table', was := Stored(table, Some(ip), net, v), LongestMatch(table, a);
    if was.Some? && was.value.Netmask() > net.Netmask() && !Contains(was.value, ip) {
      LongestMatchIs(table', a, was.value);
    } else {
      forall n | n in table' && Contains(n, a) ensures n.Netmask() <= net.Netmask() {
        if n != net && n.Netmask() > net.Netmask() {
          // An old entry is nested around the old match; if that one contained the
          // queried address, so did this one, and it would be gone.
          Nested(n, was.value, a);
        }
      }
      LongestMatchIs(table', a, net);
    }
  }

  /** A network that arrived without a queried address is only added. */
  lemma StoredUnqueried<V>(table: map<Net, V>, net: Net, v: V, a: Ip)
    ensures var was := LongestMatch(table, a);
            LongestMatch(Stored(table, None, net, v), a)
            == if Contains(net, a) && (was.None? || was.value.Netmask() <= net.Netmask()) then Some(net) else was
  {
    var table', was := Stored(table, None, net, v), LongestMatch(table, a);
    if Contains(net, a) && (was.None? || was.value.Netmask() <= net.Netmask()) {
      LongestMatchIs(table', a, net);
    } else if was.Some? {
      LongestMatchIs(table', a, was.value);
    }
  }

  // ---------------------------------------------------------------------------
  // The answering side

  /** The builder keeps the network with the longer mask; on a tie, the first. */
  function SetNetwork(current: Option<Net>, net: Net): (r: Option<Net>) {
    match current
    case Some(o) => if o.Netmask() < net.Netmask() then Some(net) else Some(o)
    case None => Some(net)
  }

  /** A server lookup: the country match, then the AS-number match, feed one builder. */
  function Locate<C, A>(country: map<Net, C>, asn: map<Net, A>, ip: Ip): (net: Option<Net>) {
    var c := LongestMatch(country, ip);
    var n := if c.Some? then SetNetwork(None, c.value) else None;
    var a := LongestMatch(asn, ip);
    if a.Some? then SetNetwork(n, a.value) else n
  }

  /**
    An honest reply is never refused by the containment check: the network built from
    both databases contains the queried address, and is the longest either one has.
   */
  lemma LocateContains<C, A>(country: map<Net, C>, asn: map<Net, A>, ip: Ip)
    ensures Locate(country, asn, ip).None? <==>
              (forall n: Net :: Contains(n, ip) ==> n !in country && n !in asn)
    ensures Locate(country, asn, ip).Some? ==>
              var net := Locate(country, asn, ip).value;
              && Contains(net, ip)
              && (net in country || net in asn)
              && forall n: Net :: Contains(n, ip) && (n in country || n in asn) ==> n.Netmask() <= net.Netmask()
  {
  }
}

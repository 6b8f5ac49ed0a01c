/** The location server: two prefix databases feed one builder per queried address. */
module GeoLocate {
  import opened Options
  import opened IpNetworks

  datatype CountryRecord = CountryRecord(country: string, continent: string)
  datatype AsnRecord = AsnRecord(number: nat, ispName: Option<string>, ispDomain: Option<string>)

  datatype Location = Location(
    net: Net,
    country: Option<string>,
    continent: Option<string>,
    asNumber: Option<nat>,
    ispName: Option<string>,
    ispDomain: Option<string>)

  class LocationBuilder {
    var net: Option<Net>
    var country: Option<string>
    var continent: Option<string>
    var asNumber: Option<nat>
    var ispName: Option<string>
    var ispDomain: Option<string>

    constructor ()
      ensures net.None? && country.None? && continent.None?
      ensures asNumber.None? && ispName.None? && ispDomain.None?
    {
      net, country, continent, asNumber, ispName, ispDomain := None, None, None, None, None, None;
    }

    method AddNetwork(added: Net)
      modifies this`net
      ensures net == SetNetwork(old(net), added)
      ensures net == if old(net).None? || old(net).value.Netmask() < added.Netmask() then Some(added) else old(net)
    {
      var before := net;
      net := None;
      if before.Some? {
        if before.value.Netmask() < added.Netmask() {
          net := Some(added);
        } else {
          net := before;
        }
      } else {
        net := Some(added);
      }
    }

    method LookupCountry(db: map<Net, CountryRecord>, ip: Ip)
      modifies this
      ensures var m := LongestMatch(db, ip);
              && net == (if m.Some? then SetNetwork(old(net), m.value) else old(net))
              && country == (if m.Some? then Some(db[m.value].country) else old(country))
              && continent == (if m.Some? then Some(db[m.value].continent) else old(continent))
      ensures asNumber == old(asNumber) && ispName == old(ispName) && ispDomain == old(ispDomain)
    {
      var m := LongestMatch(db, ip);
      if m.None? { return; }
      AddNetwork(m.value);
      country := Some(db[m.value].country);
      continent := Some(db[m.value].continent);
    }

    method LookupAsn(db: map<Net, AsnRecord>, ip: Ip)
      modifies this
      ensures var m := LongestMatch(db, ip);
              && net == (if m.Some? then SetNetwork(old(net), m.value) else old(net))
              && asNumber == (if m.Some? then Some(db[m.value].number) else old(asNumber))
              && ispName == (if m.Some? && db[m.value].ispName.Some? then db[m.value].ispName else old(ispName))
              && ispDomain == (if m.Some? && db[m.value].ispDomain.Some? then db[m.value].ispDomain else old(ispDomain))
      ensures country == old(country) && continent == old(continent)
    {
      var m := LongestMatch(db, ip);
      if m.None? { return; }
      AddNetwork(m.value);
      asNumber := Some(db[m.value].number);
      if db[m.value].ispName.Some? { ispName := db[m.value].ispName; }
      if db[m.value].ispDomain.Some? { ispDomain := db[m.value].ispDomain; }
    }

    /** A location needs a network; a missing continent is derived from the country. */
    method Build(continentOf: string -> string) returns (r: Option<Location>)
      ensures r.Some? <==> net.Some?
      ensures r.Some? ==>
                && r.value.net == net.value
                && r.value.country == country
                && r.value.continent == (if continent.Some? then continent
                                         else if country.Some? then Some(continentOf(country.value)) else None)
                && r.value.asNumber == asNumber && r.value.ispName == ispName && r.value.ispDomain == ispDomain
    {
      if net.None? { return None; }
      var c := continent;
      if c.None? && country.Some? { c := Some(continentOf(country.value)); }
      r := Some(Location(net.value, country, c, asNumber, ispName, ispDomain));
    }
  }

  /**
    What the server sends back for an address: nothing when neither database knows it,
    and otherwise a location whose network contains the address and is the most specific
    entry of either database around it.
   */
  method Answer(countries: map<Net, CountryRecord>, asns: map<Net, AsnRecord>, ip: Ip, continentOf: string -> string)
    returns (r: Option<Location>)
    ensures r.None? <==> forall n: Net :: Contains(n, ip) ==> n !in countries && n !in asns
    ensures r.Some? ==> Contains(r.value.net, ip)
    ensures r.Some? ==> forall n: Net :: Contains(n, ip) && (n in countries || n in asns) ==>
              n.Netmask() <= r.value.net.Netmask()
    ensures r.Some? ==> r.value.net in countries || r.value.net in asns
    ensures r.Some? ==> var m := LongestMatch(countries, ip);
              && r.value.country == (if m.Some? then Some(countries[m.value].country) else None)
              && r.value.continent == (if m.Some? then Some(countries[m.value].continent) else None)
    ensures r.Some? ==> var m := LongestMatch(asns, ip);
              && r.value.asNumber == (if m.Some? then Some(asns[m.value].number) else None)
              && r.value.ispName == (if m.Some? then asns[m.value].ispName else None)
              && r.value.ispDomain == (if m.Some? then asns[m.value].ispDomain else None)
  {
    var builder := new LocationBuilder();
    builder.LookupCountry(countries, ip);
    builder.LookupAsn(asns, ip);
    LocateContains(countries, asns, ip);
    r := builder.Build(continentOf);
  }
}

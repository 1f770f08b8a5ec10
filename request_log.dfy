/**
  The request logging of the static file server: the request counters, the
  rewrite of the root path, the geolocation text and the log line with its
  analytics row.  The clock, the geolocation service's reply and the file
  serving itself are outside the model; the clock's text and the reply are
  parameters.
 */
module RequestLog {
  import opened Wrappers
  import opened Seqs
  import opened Text

  // ---------------------------------------------------------------------
  // Counters

  /** `counts.get(ip, 0)`. */
  function Get(counts: map<string, nat>, ip: string): nat {
    if ip in counts then counts[ip] else 0
  }

  /** The sum of the per-address counts. */
  ghost function Sum(counts: map<string, nat>): nat
    decreases |counts|
  {
    if counts == map[] then 0
    else
      var ip :| ip in counts;
      counts[ip] + Sum(counts - {ip})
  }

  /** The sum can be taken by removing any address first. */
  lemma {:induction false} SumRemove(counts: map<string, nat>, ip: string)
    requires ip in counts
    ensures Sum(counts) == counts[ip] + Sum(counts - {ip})
    decreases |counts|
  {
    var first :| first in counts && Sum(counts) == counts[first] + Sum(counts - {first});
    if first != ip {
      SumRemove(counts - {first}, ip);
      SumRemove(counts - {ip}, first);
      assert counts - {first} - {ip} == counts - {ip} - {first};
    }
  }

  /** Setting one address's count to `v` changes the sum by the difference. */
  lemma SumUpdate(counts: map<string, nat>, ip: string, v: nat)
    ensures Sum(counts[ip := v]) + Get(counts, ip) == Sum(counts) + v
  {
    var updated := counts[ip := v];
    SumRemove(updated, ip);
    assert updated - {ip} == counts - {ip};
    if ip in counts {
      SumRemove(counts, ip);
    } else {
      assert counts - {ip} == counts;
    }
  }

  /** `_total_requests` and `_per_ip_counts`, updated under the lock. */
  class Counters {
    var total: nat
    var perIp: map<string, nat>

    /** The total is the sum of the per-address counts. */
    ghost predicate Valid()
      reads this
    {
      total == Sum(perIp)
    }

    /** Both start at zero. */
    constructor ()
      ensures total == 0 && perIp == map[] && Valid()
    {
      total := 0;
      perIp := map[];
    }

    /**
      The update in `log_request`: the total and the address's count each go
      up by one, every other count is unchanged, and the two new values are
      returned for the log line.
     */
    method Count(ip: string) returns (totalNow: nat, ipCount: nat)
      requires Valid()
      modifies this
      ensures Valid()
      ensures total == old(total) + 1
      ensures perIp == old(perIp)[ip := Get(old(perIp), ip) + 1]
      ensures totalNow == total && ipCount == perIp[ip]
    {
      SumUpdate(perIp, ip, Get(perIp, ip) + 1);
      total := total + 1;
      perIp := perIp[ip := Get(perIp, ip) + 1];
      totalNow := total;
      ipCount := perIp[ip];
    }
  }

  /** A count update touches no other address. */
  lemma CountOthersUnchanged(counts: map<string, nat>, ip: string, other: string)
    requires other != ip
    ensures Get(counts[ip := Get(counts, ip) + 1], other) == Get(counts, other)
  {
  }

  /** Requests logged one after another: the total is their number, each count the number from that address. */
  ghost function CountAll(ips: seq<string>): map<string, nat>
    decreases |ips|
  {
    if ips == [] then map[]
    else
      var counts := CountAll(ips[..|ips| - 1]);
      var ip := ips[|ips| - 1];
      counts[ip := Get(counts, ip) + 1]
  }

  /** Starting from zero, after any requests the total is the sum of the counts. */
  lemma {:induction false} CountAllSum(ips: seq<string>)
    ensures Sum(CountAll(ips)) == |ips|
    decreases |ips|
  {
    if ips != [] {
      var counts := CountAll(ips[..|ips| - 1]);
      var ip := ips[|ips| - 1];
      CountAllSum(ips[..|ips| - 1]);
      SumUpdate(counts, ip, Get(counts, ip) + 1);
    }
  }

  // ---------------------------------------------------------------------
  // The pieces of the log line

  /** `self.client_address[0] if self.client_address else '-'`; `None` is a missing address. */
  function ClientIp(clientAddress: Option<string>): (ip: string)
    ensures clientAddress.None? ==> ip == "-"
    ensures clientAddress.Some? ==> ip == clientAddress.value
  {
    match clientAddress
    case None => "-"
    case Some(host) => host
  }

  /** The path `do_GET` serves: the root, `''` or `'/'`, becomes `'/index.html'`. */
  function RewritePath(path: string): (r: string)
    ensures r == path <==> path != "" && path != "/"
    ensures r != path ==> r == "/index.html"
  {
    if path == "" || path == "/" then "/index.html" else path
  }

  lemma RewritePathIdempotent(path: string)
    ensures RewritePath(RewritePath(path)) == RewritePath(path)
  {
  }

  /** The fields of the geolocation reply the server reads; `None` is a missing or `null` field. */
  datatype GeoReply = GeoReply(status: Option<string>, country: Option<string>, region: Option<string>, city: Option<string>)

  predicate NonEmpty(s: string) {
    s != ""
  }

  /** `[p for p in (country, region, city) if p]`, each field read as `data.get(key) or ''`. */
  function GeoParts(r: GeoReply): seq<string> {
    Filter([r.country.GetOr(""), r.region.GetOr(""), r.city.GetOr("")], NonEmpty)
  }

  /**
    `fetch_geo(ip)`, given the service's reply: `None` is a failed request or
    an unreadable reply.  Only a `'success'` reply gives text.
   */
  function FetchGeo(reply: Option<GeoReply>): string {
    match reply
    case None => ""
    case Some(r) => if r.status != Some("success") then "" else Join(GeoParts(r), " / ")
  }

  /** Non-empty parts join to non-empty text. */
  lemma JoinNonEmpty(parts: seq<string>, sep: string)
    requires forall i :: 0 <= i < |parts| ==> parts[i] != ""
    ensures Join(parts, sep) == "" <==> parts == []
  {
    if |parts| > 1 {
      assert |parts[0] + sep + Join(parts[1..], sep)| >= |parts[0]|;
    }
  }

  /** The non-empty fields join to empty text exactly when every field is empty. */
  lemma JoinFilterEmpty(fields: seq<string>, sep: string)
    ensures Join(Filter(fields, NonEmpty), sep) == "" <==> forall i :: 0 <= i < |fields| ==> fields[i] == ""
  {
    var parts := Filter(fields, NonEmpty);
    forall i | 0 <= i < |parts| ensures parts[i] != "" {
      assert parts[i] in parts;
    }
    JoinNonEmpty(parts, sep);
    if parts == [] {
      forall i | 0 <= i < |fields| ensures fields[i] == "" {
        assert fields[i] in fields;
      }
    } else {
      assert parts[0] in parts;
      assert parts[0] in fields && parts[0] != "";
    }
  }

  /** The geolocation text is empty exactly when the lookup failed, was refused, or named no place. */
  lemma FetchGeoEmpty(reply: Option<GeoReply>)
    ensures FetchGeo(reply) == "" <==>
      || reply.None?
      || reply.value.status != Some("success")
      || (reply.value.country.GetOr("") == "" && reply.value.region.GetOr("") == "" && reply.value.city.GetOr("") == "")
  {
    if reply.Some? && reply.value.status == Some("success") {
      var r := reply.value;
      var fields := [r.country.GetOr(""), r.region.GetOr(""), r.city.GetOr("")];
      JoinFilterEmpty(fields, " / ");
      assert (forall i :: 0 <= i < |fields| ==> fields[i] == "") <==> fields[0] == "" && fields[1] == "" && fields[2] == "";
    }
  }

  /** Three parts join with the separator between each neighbouring pair. */
  lemma JoinThree(a: string, b: string, c: string, sep: string)
    ensures Join([a, b, c], sep) == a + sep + b + sep + c
  {
    JoinCons(a, [b, c], sep);
    JoinCons(b, [c], sep);
    assert [a] + [b, c] == [a, b, c];
  }

  /** With every field present, the text is country, region and city in that order. */
  lemma FetchGeoFull(r: GeoReply, country: string, region: string, city: string)
    requires r.status == Some("success") && country != "" && region != "" && city != ""
    requires r.country == Some(country) && r.region == Some(region) && r.city == Some(city)
    ensures FetchGeo(Some(r)) == country + " / " + region + " / " + city
  {
    var fields := [country, region, city];
    FilterAll(fields, NonEmpty);
    assert GeoParts(r) == fields;
    JoinThree(country, region, city, " / ");
  }

  /** With only some fields present, the missing ones leave no separator behind. */
  lemma FetchGeoCityOnly(r: GeoReply, city: string)
    requires r.status == Some("success") && city != "" && r.country.GetOr("") == "" && r.region.GetOr("") == ""
    requires r.city == Some(city)
    ensures FetchGeo(Some(r)) == city
  {
    var fields := [r.country.GetOr(""), r.region.GetOr(""), city];
    assert fields[..2] == ["", ""] && fields == fields[..2] + [city];
    FilterNone(fields[..2], NonEmpty);
    FilterSnoc(fields[..2], city, NonEmpty);
  }

  /** `GEOLOOKUP_ENABLED`. */
  const GeolookupEnabled: bool := false

  /** The lookup runs only when enabled, and never for the loopback addresses. */
  function LoggedGeo(enabled: bool, ip: string, reply: Option<GeoReply>): (geo: string)
    ensures (!enabled || ip == "127.0.0.1" || ip == "::1") ==> geo == ""
    ensures enabled && ip != "127.0.0.1" && ip != "::1" ==> geo == FetchGeo(reply)
  {
    if enabled && ip != "127.0.0.1" && ip != "::1" then FetchGeo(reply) else ""
  }

  /** A code or size: an `int`, or text such as the default `'-'`. */
  datatype Arg = IntArg(n: int) | TextArg(s: string)

  /** `f'{x}'`. */
  function ArgText(a: Arg): string {
    match a
    case IntArg(n) => IntToString(n)
    case TextArg(s) => s
  }

  /** `f'{size}B' if isinstance(size, int) else f'{size}'`. */
  function SizeText(size: Arg): (r: string)
    ensures size.IntArg? ==> EndsWith(r, "B") && r[..|r| - 1] == ArgText(size)
    ensures size.TextArg? ==> r == ArgText(size)
  {
    match size
    case IntArg(_) =>
      var r := ArgText(size) + "B";
      assert r[..|r| - 1] == ArgText(size);
      r
    case TextArg(s) => s
  }

  /** The opening of the line: the time and the address. */
  function LineHead(ts: string, ip: string): string {
    "[" + ts + "] " + ip + " "
  }

  /** The request, its outcome and the two counts, closed by `]`. */
  function LineBody(command: string, path: string, code: Arg, size: Arg, total: nat, ipCount: nat): (body: string)
    ensures body != [] && body[|body| - 1] == ']'
  {
    var text := command + " " + path + " -> " + ArgText(code) + " (" + SizeText(size) + ") [# "
      + IntToString(total) + ", this IP: " + IntToString(ipCount);
    text + "]"
  }

  /** The geolocation appended to the line. */
  function GeoTag(geo: string): string {
    " geo: " + geo
  }

  /** The line `log_request` prints. */
  function Message(ts: string, ip: string, command: string, path: string, code: Arg, size: Arg,
                   total: nat, ipCount: nat, geo: string): string
  {
    var line := LineHead(ts, ip) + LineBody(command, path, code, size, total, ipCount);
    if geo != "" then line + GeoTag(geo) else line
  }

  lemma PrefixOfAppend(a: string, b: string)
    ensures StartsWith(a + b, a)
  {
    assert (a + b)[..|a|] == a;
  }

  lemma PrefixOfAppend3(a: string, b: string, c: string)
    ensures StartsWith(a + b + c, a)
  {
    assert (a + b + c)[..|a|] == a;
  }

  lemma SuffixOfAppend(a: string, b: string)
    ensures EndsWith(a + b, b)
  {
    assert (a + b)[|a|..] == b;
  }

  /** The line opens with the time and the address, and carries the geolocation only when there is one. */
  lemma MessageShape(ts: string, ip: string, command: string, path: string, code: Arg, size: Arg,
                     total: nat, ipCount: nat, geo: string)
    ensures var m := Message(ts, ip, command, path, code, size, total, ipCount, geo);
      && StartsWith(m, LineHead(ts, ip))
      && (geo != "" ==> EndsWith(m, GeoTag(geo)))
      && (geo == "" ==> m[|m| - 1] == ']')
  {
    var head := LineHead(ts, ip);
    var body := LineBody(command, path, code, size, total, ipCount);
    PrefixOfAppend(head, body);
    if geo != "" {
      var suffix := GeoTag(geo);
      PrefixOfAppend3(head, body, suffix);
      SuffixOfAppend(head + body, suffix);
    }
  }

  /** The analytics row: `[ts, ip, path, code, size, geo]`, each written with `str`. */
  function AnalyticsRow(ts: string, ip: string, path: string, code: Arg, size: Arg, geo: string): (row: seq<string>)
    ensures |row| == 6 && row[1] == ip && row[5] == geo
  {
    [ts, ip, path, ArgText(code), ArgText(size), geo]
  }

  // ---------------------------------------------------------------------
  // The handler

  /** The request handler's fields the logging reads and `do_GET` rewrites. */
  class Handler {
    var path: string
    const command: string
    const clientAddress: Option<string>

    constructor (command: string, path: string, clientAddress: Option<string>)
      ensures this.command == command && this.path == path && this.clientAddress == clientAddress
    {
      this.command := command;
      this.path := path;
      this.clientAddress := clientAddress;
    }

    /** `do_GET`, up to the file serving it hands over to. */
    method DoGet()
      modifies this
      ensures path == RewritePath(old(path))
    {
      if path == "" || path == "/" {
        path := "/index.html";
      }
    }

    /**
      `log_request(code, size)`: counts the request, looks up the
      geolocation when enabled, and returns the printed line and the
      analytics row.  `ts` is the clock's text and `reply` what the
      geolocation service would answer.
     */
    method LogRequest(counters: Counters, ts: string, code: Arg, size: Arg, enabled: bool, reply: Option<GeoReply>)
      returns (msg: string, row: seq<string>)
      requires counters.Valid()
      modifies counters
      ensures counters.Valid()
      ensures var ip := ClientIp(clientAddress);
        && counters.total == old(counters.total) + 1
        && counters.perIp == old(counters.perIp)[ip := Get(old(counters.perIp), ip) + 1]
        && var geo := LoggedGeo(enabled, ip, reply);
        && msg == Message(ts, ip, command, path, code, size, counters.total, counters.perIp[ip], geo)
        && row == AnalyticsRow(ts, ip, path, code, size, geo)
    {
      var ip := ClientIp(clientAddress);
      var total, ipCount := counters.Count(ip);
      var geo := "";
      if enabled && ip != "127.0.0.1" && ip != "::1" {
        geo := FetchGeo(reply);
      }
      msg := Message(ts, ip, command, path, code, size, total, ipCount, geo);
      row := [ts, ip, path, ArgText(code), ArgText(size), geo];
    }
  }

  /** With the lookup switched off, as it ships, no line carries a geolocation. */
  lemma ShippedWithoutGeo(ip: string, reply: Option<GeoReply>)
    ensures LoggedGeo(GeolookupEnabled, ip, reply) == ""
  {
  }
}

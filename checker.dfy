/**
 * The validator (modules/checker.py): the location cascade with its cache, the anonymity
 * classifier, the shaping of one result from the outcomes of its probes, and the control
 * flow of a validation run. Every network probe is an oracle: a value it returned, or None
 * where it failed.
 */
module Checker {
  import opened Wrappers
  import opened Text
  import opened Records

  // ---------------------------------------------------------------- the location cache key

  /** The first at most three dot-separated components of an address. */
  function FirstThree(ip: string): seq<string> {
    var parts := Split(ip, '.');
    parts[..if |parts| < 3 then |parts| else 3]
  }

  /** The cache key: the first three components, joined by dots again. */
  function CacheKey(ip: string): string {
    Join(FirstThree(ip), '.')
  }

  /** The key reads back as exactly the first three components of the address. */
  lemma CacheKeyParts(ip: string)
    ensures Split(CacheKey(ip), '.') == FirstThree(ip)
  {
    SplitJoin(FirstThree(ip), '.');
  }

  /** Two addresses share a cache entry exactly when their first three components agree. */
  lemma SharedEntryIff(ip1: string, ip2: string)
    ensures CacheKey(ip1) == CacheKey(ip2) <==> FirstThree(ip1) == FirstThree(ip2)
  {
    CacheKeyParts(ip1);
    CacheKeyParts(ip2);
  }

  /** For a dotted quad the key is the /24 network, whatever the last octet. */
  lemma CacheKeyOfQuad(a: string, b: string, c: string, d: string)
    requires '.' !in a && '.' !in b && '.' !in c && '.' !in d
    ensures CacheKey(Join([a, b, c, d], '.')) == Join([a, b, c], '.')
  {
    SplitJoin([a, b, c, d], '.');
    assert [a, b, c, d][..3] == [a, b, c];
  }

  // ---------------------------------------------------------------- the location cascade

  /** A lookup counts when it answered a non-empty text; None stands for one that raised or answered None. */
  predicate Truthy(a: Option<string>) { a.Some? && a.value != "" }

  /** The first lookup, in the fixed order, that gave a truthy answer. */
  function FirstAnswer(answers: seq<Option<string>>): (r: Option<nat>)
    ensures r.Some? ==> r.value < |answers| && Truthy(answers[r.value])
    ensures r.Some? ==> forall j :: 0 <= j < r.value ==> !Truthy(answers[j])
    ensures r.None? ==> forall j :: 0 <= j < |answers| ==> !Truthy(answers[j])
  {
    if answers == [] then None
    else if Truthy(answers[0]) then Some(0)
    else
      match FirstAnswer(answers[1..])
      case None => None
      case Some(i) => Some(i + 1)
  }

  /** What one location query yields: the location, the cache afterwards, and how many lookups it made. */
  datatype Lookup = Lookup(location: string, cache: map<string, string>, asked: nat)

  function Locate(cache: map<string, string>, ip: string, answers: seq<Option<string>>): Lookup {
    var key := CacheKey(ip);
    if key in cache then Lookup(cache[key], cache, 0)
    else
      match FirstAnswer(answers)
      case Some(i) => Lookup(answers[i].value, cache[key := answers[i].value], i + 1)
      case None => Lookup("Unknown", cache, |answers|)
  }

  /** The cache only ever holds truthy answers. */
  predicate CacheHolds(cache: map<string, string>) {
    forall k :: k in cache ==> cache[k] != ""
  }

  /**
   * A hit answers from the cache without any lookup; a miss asks the services in order up to
   * the first truthy answer, which it returns and files under the key; when none answers, the
   * result is "Unknown" and the cache is left as it was.
   */
  lemma LocateCascade(cache: map<string, string>, ip: string, answers: seq<Option<string>>)
    requires CacheHolds(cache)
    ensures var l := Locate(cache, ip, answers);
      && CacheHolds(l.cache)
      && l.asked <= |answers|
      && (CacheKey(ip) in cache ==> l == Lookup(cache[CacheKey(ip)], cache, 0))
      && (CacheKey(ip) !in cache && FirstAnswer(answers).Some? ==>
            && Truthy(answers[l.asked - 1]) && l.location == answers[l.asked - 1].value
            && (forall j :: 0 <= j < l.asked - 1 ==> !Truthy(answers[j]))
            && l.cache == cache[CacheKey(ip) := l.location])
      && (CacheKey(ip) !in cache && FirstAnswer(answers).None? ==>
            l.location == "Unknown" && l.cache == cache && l.asked == |answers|)
  {
  }

  /**
   * Once a query has found a location, every later query for the same network is answered
   * from the cache with that location and no lookup, whatever the services would say.
   */
  lemma FoundStaysCached(cache: map<string, string>, ip: string, answers: seq<Option<string>>,
                         ip2: string, later: seq<Option<string>>)
    requires CacheKey(ip2) == CacheKey(ip)
    requires CacheKey(ip) in cache || FirstAnswer(answers).Some?
    ensures var l := Locate(cache, ip, answers);
      Locate(l.cache, ip2, later) == Lookup(l.location, l.cache, 0)
  {
  }

  // ---------------------------------------------------------------- anonymity

  /** The anonymity probe's echo after decoding: the X-Forwarded-For header, the origin field, and whether a Via header came back. */
  datatype Echo = Echo(forwardedFor: Option<string>, origin: Option<string>, via: bool)

  /** The addresses the target saw: X-Forwarded-For when present, otherwise origin (or ""). */
  function OriginText(e: Echo): string {
    if e.forwardedFor.Some? then e.forwardedFor.value else e.origin.GetOr("")
  }

  function StripAll(parts: seq<string>): (r: seq<string>)
    ensures |r| == |parts| && forall i :: 0 <= i < |parts| ==> r[i] == Strip(parts[i])
  {
    if parts == [] then [] else [Strip(parts[0])] + StripAll(parts[1..])
  }

  /** The comma-separated entries of the origin text, each stripped. */
  function OriginIps(e: Echo): seq<string> {
    StripAll(Split(OriginText(e), ','))
  }

  /** Some entry holds `own` as a substring. */
  predicate Mentions(ips: seq<string>, own: string) {
    ips != [] && (Contains(ips[0], own) || Mentions(ips[1..], own))
  }

  /** Our own public address, when known, appears inside one of the entries. */
  predicate SeesOwnAddress(publicIp: Option<string>, ips: seq<string>) {
    publicIp.Some? && publicIp.value != "" && Mentions(ips, publicIp.value)
  }

  lemma {:induction false} MentionsIff(ips: seq<string>, own: string)
    ensures Mentions(ips, own) <==> exists i :: 0 <= i < |ips| && Contains(ips[i], own)
  {
    if ips != [] {
      MentionsIff(ips[1..], own);
      if Mentions(ips[1..], own) {
        var i :| 0 <= i < |ips[1..]| && Contains(ips[1..][i], own);
        assert ips[i + 1] == ips[1..][i];
      }
      forall i | 1 <= i < |ips|
        ensures ips[i] == ips[1..][i - 1]
      {
      }
    }
  }

  function Classify(publicIp: Option<string>, e: Echo): Anonymity {
    var ips := OriginIps(e);
    if SeesOwnAddress(publicIp, ips) then Transparent
    else if |ips| > 1 || e.via then Anonymous
    else Elite
  }

  /**
   * The classes in terms of the echo itself: Transparent exactly when our address shows;
   * otherwise Anonymous exactly when the origin text lists several addresses (it holds a
   * comma) or a Via header came back, and Elite exactly when neither; never Unknown.
   */
  lemma ClassifyIff(publicIp: Option<string>, e: Echo)
    ensures Classify(publicIp, e) != Unknown
    ensures Classify(publicIp, e) == Transparent <==> SeesOwnAddress(publicIp, OriginIps(e))
    ensures !SeesOwnAddress(publicIp, OriginIps(e)) ==>
      (Classify(publicIp, e) == Anonymous <==> ',' in OriginText(e) || e.via)
    ensures Classify(publicIp, e) == Elite <==>
      !SeesOwnAddress(publicIp, OriginIps(e)) && ',' !in OriginText(e) && !e.via
  {
    var t := OriginText(e);
    assert |OriginIps(e)| == |Split(t, ',')|;
    SplitManyIffSep(t, ',');
  }

  // ---------------------------------------------------------------- one full check

  /** A finished download: its size in bytes and the seconds it took. */
  datatype Download = Download(bytes: nat, seconds: real)

  /**
   * How the anonymity probe ends: with a decoded echo; with a request error (a body that is
   * not JSON raises one too, since requests' JSON decoding error is a request error); or with
   * an answer whose shape makes reading it raise another error, which the check does not
   * catch (a JSON list, an `X-Forwarded-For` or `origin` that is null or not a string).
   */
  datatype EchoProbe = Echoed(echo: Echo) | RequestFailed | Unreadable

  /** What the probes of one candidate return, each None where it failed. */
  datatype Probes = Probes(
    latency: Option<Duration>,
    echo: EchoProbe,
    download: Option<Download>,
    answers: seq<Option<string>>)

  /** The result as it stands before any probe: failed, infinite latency, no speed, unknown class, no location. */
  function Initial(address: string, protocol: string): Record {
    Record(address, Upper(protocol), Failed, None, 0.0, Unknown, "N/A", None)
  }

  /** Megabits per second, set only when both the size and the duration are positive. */
  function MeasuredSpeed(d: Option<Download>): real {
    if d.Some? && d.value.seconds > 0.0 && d.value.bytes > 0
    then (d.value.bytes as real / d.value.seconds) * 8.0 / 1000000.0
    else 0.0
  }

  /** The host part of "host:port", as it is handed to the location query. */
  function HostOf(address: string): string {
    Split(address, ':')[0]
  }

  /** The candidate passed the latency and anonymity probes and was not found transparent. */
  predicate Reaches(publicIp: Option<string>, pr: Probes) {
    pr.latency.Some? && pr.echo.Echoed? && Classify(publicIp, pr.echo.echo) != Transparent
  }

  /** The check raises an error it does not catch: the latency probe passed and the echo cannot be read. */
  predicate Raises(pr: Probes) {
    pr.latency.Some? && pr.echo.Unreadable?
  }

  /** The result of a full check, given the location the query would answer; None where the check raises. */
  function CheckOutcome(publicIp: Option<string>, address: string, protocol: string, pr: Probes, location: string): Option<Record> {
    if Raises(pr) then None else Some(Stages(publicIp, address, protocol, pr, location))
  }

  /** The result filled stage by stage, for a check that does not raise. */
  function Stages(publicIp: Option<string>, address: string, protocol: string, pr: Probes, location: string): Record {
    var r := Initial(address, protocol);
    if pr.latency.None? then r
    else
      var r := r.(latency := pr.latency);
      if !pr.echo.Echoed? then r
      else
        var a := Classify(publicIp, pr.echo.echo);
        if a == Transparent then r.(anonymity := a)
        else
          var speed := if pr.latency.value <= 7.0 then MeasuredSpeed(pr.download) else 0.0;
          r.(anonymity := a, speed := speed, location := location, status := Working)
  }

  /**
   * What a full check gives, stage by stage: nothing where it raises; otherwise a result for
   * the candidate that is Working exactly when it reached the end, with the probed latency,
   * class and location and a speed only from a fast, measured download, and a failed one that
   * keeps "N/A", no speed and the latency it measured.
   */
  lemma OutcomeOfProbes(publicIp: Option<string>, address: string, protocol: string, pr: Probes, location: string)
    ensures var r := CheckOutcome(publicIp, address, protocol, pr, location);
      && (r.None? <==> Raises(pr))
      && (r.Some? ==> r.value.address == address && r.value.protocol == Upper(protocol) && r.value.score.None?)
      && (r.Some? ==> (r.value.status == Working <==> Reaches(publicIp, pr)))
      && (r.Some? && r.value.status == Working ==>
            && r.value.latency == pr.latency && r.value.location == location
            && (r.value.anonymity == Anonymous || r.value.anonymity == Elite)
            && r.value.anonymity == Classify(publicIp, pr.echo.echo))
      && (r.Some? && r.value.status == Failed ==>
            && r.value.location == "N/A" && r.value.speed == 0.0
            && (r.value.anonymity == Unknown || r.value.anonymity == Transparent)
            && (r.value.anonymity == Transparent <==> pr.latency.Some? && pr.echo.Echoed?)
            && r.value.latency == pr.latency)
      && (r.Some? && r.value.speed != 0.0 ==>
            && r.value.status == Working && r.value.latency.value <= 7.0
            && pr.download.Some? && pr.download.value.bytes > 0 && pr.download.value.seconds > 0.0)
  {
  }

  /** `r` is what a full check with probes `pr` gives for `c`, at the location `r` carries. */
  predicate ResultFor(publicIp: Option<string>, c: Candidate, pr: Probes, r: Record) {
    CheckOutcome(publicIp, c.address, c.protocol, pr, r.location) == Some(r)
  }

  /** Every element of a stream is present and satisfies `good` at its position. */
  predicate AllGood<T>(stream: seq<Option<T>>, good: (nat, T) -> bool) {
    forall i :: 0 <= i < |stream| ==> stream[i].Some? && good(i, stream[i].value)
  }

  lemma AllGoodStep<T>(stream: seq<Option<T>>, x: T, good: (nat, T) -> bool)
    requires AllGood(stream, good) && good(|stream|, x)
    ensures AllGood(stream + [Some(x)], good)
  {
    var next := stream + [Some(x)];
    assert forall i :: 0 <= i < |stream| ==> next[i] == stream[i];
  }

  /** The result at position i is what a full check gives for the i-th of `checked`. */
  function Fits(publicIp: Option<string>, checked: seq<Candidate>, probes: Candidate -> Probes): (nat, Record) -> bool {
    (i: nat, r: Record) => i < |checked| && ResultFor(publicIp, checked[i], probes(checked[i]), r)
  }

  /** Results that fit a list of candidates still fit once more candidates follow them. */
  lemma FitsGrow(publicIp: Option<string>, stream: seq<Option<Record>>, checked: seq<Candidate>, more: seq<Candidate>,
                 probes: Candidate -> Probes)
    requires AllGood(stream, Fits(publicIp, checked, probes))
    ensures AllGood(stream, Fits(publicIp, checked + more, probes))
  {
    forall i | 0 <= i < |stream|
      ensures Fits(publicIp, checked + more, probes)(i, stream[i].value)
    {
      assert Fits(publicIp, checked, probes)(i, stream[i].value);
      assert (checked + more)[i] == checked[i];
    }
  }

  /** A result does not depend on the location it was given unless it is Working. */
  lemma OutcomeOwnLocation(publicIp: Option<string>, address: string, protocol: string, pr: Probes, location: string)
    ensures var r := CheckOutcome(publicIp, address, protocol, pr, location);
      r.Some? ==> CheckOutcome(publicIp, address, protocol, pr, r.value.location) == r
  {
  }

  // ---------------------------------------------------------------- a validation run

  datatype Candidate = Candidate(address: string, protocol: string)

  /** The candidates of every protocol, protocol by protocol in the mapping's order. */
  function Flatten(byProtocol: seq<(string, seq<string>)>): (r: seq<Candidate>)
    ensures |r| == Size(byProtocol)
  {
    if byProtocol == [] then []
    else
      var (proto, addresses) := byProtocol[0];
      Tagged(addresses, proto) + Flatten(byProtocol[1..])
  }

  function Size(byProtocol: seq<(string, seq<string>)>): nat {
    if byProtocol == [] then 0 else |byProtocol[0].1| + Size(byProtocol[1..])
  }

  function Tagged(addresses: seq<string>, proto: string): (r: seq<Candidate>)
    ensures |r| == |addresses|
    ensures forall i :: 0 <= i < |r| ==> r[i] == Candidate(addresses[i], proto)
  {
    if addresses == [] then [] else [Candidate(addresses[0], proto)] + Tagged(addresses[1..], proto)
  }

  /** Every listed address appears once per listing, tagged with its protocol, and nothing else. */
  lemma {:induction false} FlattenMembers(byProtocol: seq<(string, seq<string>)>, c: Candidate)
    ensures c in Flatten(byProtocol) <==>
      exists i :: 0 <= i < |byProtocol| && byProtocol[i].0 == c.protocol && c.address in byProtocol[i].1
  {
    if byProtocol != [] {
      FlattenMembers(byProtocol[1..], c);
      var head := Tagged(byProtocol[0].1, byProtocol[0].0);
      assert c in head <==> byProtocol[0].0 == c.protocol && c.address in byProtocol[0].1 by {
        if c.address in byProtocol[0].1 && byProtocol[0].0 == c.protocol {
          var k :| 0 <= k < |byProtocol[0].1| && byProtocol[0].1[k] == c.address;
          assert head[k] == c;
        }
      }
      forall i | 1 <= i < |byProtocol|
        ensures byProtocol[i] == byProtocol[1..][i - 1]
      {
      }
    }
  }

  /** The TCP pre-check: "host:port" splits into exactly two fields, the port reads as an integer, and the connection opens. */
  predicate PreCheck(c: Candidate, connects: (string, int) -> bool) {
    var parts := Split(c.address, ':');
    |parts| == 2 && ParseInt(parts[1]).Some? && connects(parts[0], ParseInt(parts[1]).value)
  }

  /** The candidates that pass the pre-check, in order. */
  function Passing(all: seq<Candidate>, connects: (string, int) -> bool): seq<Candidate> {
    if all == [] then []
    else Passing(all[..|all| - 1], connects) + (if PreCheck(all[|all| - 1], connects) then [all[|all| - 1]] else [])
  }

  /** The candidates whose full check returns a result rather than raising, in order. */
  function Completed(checked: seq<Candidate>, probes: Candidate -> Probes): seq<Candidate> {
    if checked == [] then []
    else
      var last := checked[|checked| - 1];
      Completed(checked[..|checked| - 1], probes) + (if Raises(probes(last)) then [] else [last])
  }

  /** The survivors that get a result are exactly those whose check does not raise, each as often as it survived. */
  lemma {:induction false} CompletedIsFilter(checked: seq<Candidate>, probes: Candidate -> Probes, c: Candidate)
    ensures multiset(Completed(checked, probes))[c] == if Raises(probes(c)) then 0 else multiset(checked)[c]
  {
    if checked != [] {
      var init, last := checked[..|checked| - 1], checked[|checked| - 1];
      CompletedIsFilter(init, probes, c);
      assert checked == init + [last];
      var tail := if Raises(probes(last)) then [] else [last];
      assert Completed(checked, probes) == Completed(init, probes) + tail;
      assert multiset(Completed(checked, probes)) == multiset(Completed(init, probes)) + multiset(tail);
      assert multiset(checked) == multiset(init) + multiset{last};
    }
  }

  /** There are at most as many results as survivors, and one for each when no check raises. */
  lemma {:induction false} CompletedCount(checked: seq<Candidate>, probes: Candidate -> Probes)
    ensures |Completed(checked, probes)| <= |checked|
    ensures (forall i :: 0 <= i < |checked| ==> !Raises(probes(checked[i]))) ==> Completed(checked, probes) == checked
  {
    if checked != [] {
      var init := checked[..|checked| - 1];
      CompletedCount(init, probes);
      assert forall i :: 0 <= i < |init| ==> init[i] == checked[i];
      assert checked == init + [checked[|checked| - 1]];
    }
  }

  /** Above 10000 candidates the pre-check is skipped and everyone survives. */
  function Survivors(all: seq<Candidate>, connects: (string, int) -> bool): seq<Candidate> {
    if |all| > 10000 then all else Passing(all, connects)
  }

  /** The passing candidates are exactly those that pass, each as often as it was listed. */
  lemma {:induction false} PassingIsFilter(all: seq<Candidate>, connects: (string, int) -> bool, c: Candidate)
    ensures multiset(Passing(all, connects))[c] == if PreCheck(c, connects) then multiset(all)[c] else 0
  {
    if all != [] {
      var init, last := all[..|all| - 1], all[|all| - 1];
      PassingIsFilter(init, connects, c);
      assert all == init + [last];
    }
  }

  /** The survivors: everyone above the threshold, else exactly the candidates that pass. */
  lemma SurvivorsRule(all: seq<Candidate>, connects: (string, int) -> bool)
    ensures |all| > 10000 ==> Survivors(all, connects) == all
    ensures |all| <= 10000 ==> forall c :: c in Survivors(all, connects) <==> c in all && PreCheck(c, connects)
  {
    if |all| <= 10000 {
      forall c
        ensures c in Survivors(all, connects) <==> c in all && PreCheck(c, connects)
      {
        PassingIsFilter(all, connects, c);
      }
    }
  }

  // ---------------------------------------------------------------- the validator

  class ProxyChecker {
    /** location_cache */
    var cache: map<string, string>
    /** public_ip */
    var publicIp: Option<string>

    ghost predicate Valid()
      reads this
    {
      CacheHolds(cache) && (publicIp.Some? ==> publicIp.value != "" && '.' in publicIp.value)
    }

    constructor ()
      ensures Valid() && cache == map[] && publicIp == None
    {
      cache := map[];
      publicIp := None;
    }

    /** Adopts the stripped output of the address service when it is non-empty and holds a dot. */
    method InitializePublicIp(output: Option<string>)
      requires Valid()
      modifies this
      ensures Valid() && cache == old(cache)
      ensures var ip := Strip(output.GetOr(""));
        publicIp == if output.Some? && ip != "" && '.' in ip then Some(ip) else old(publicIp)
    {
      if output.Some? {
        var ip := Strip(output.value);
        if ip != "" && '.' in ip {
          publicIp := Some(ip);
        }
      }
    }

    /** The location of `ip`, from the cache or from the services' answers in order. */
    method GetProxyLocation(ip: string, answers: seq<Option<string>>) returns (location: string, asked: nat)
      requires Valid()
      modifies this
      ensures Valid() && publicIp == old(publicIp)
      ensures Lookup(location, cache, asked) == Locate(old(cache), ip, answers)
    {
      var key := CacheKey(ip);
      if key in cache {
        return cache[key], 0;
      }
      var i := 0;
      while i < |answers|
        invariant i <= |answers| && cache == old(cache)
        invariant forall j :: 0 <= j < i ==> !Truthy(answers[j])
      {
        var answer := answers[i];
        if answer.Some? && answer.value != "" {
          cache := cache[key := answer.value];
          return answer.value, i + 1;
        }
        i := i + 1;
      }
      return "Unknown", |answers|;
    }

    /** One full check of a candidate, filling the result stage by stage; None where it raises. */
    method FullCheck(address: string, protocol: string, pr: Probes) returns (r: Option<Record>)
      requires Valid()
      modifies this
      ensures Valid() && publicIp == old(publicIp)
      ensures var look := Locate(old(cache), HostOf(address), pr.answers);
        && r == CheckOutcome(publicIp, address, protocol, pr, look.location)
        && cache == if Reaches(publicIp, pr) then look.cache else old(cache)
    {
      var result := Initial(address, protocol);
      if pr.latency.None? {
        return Some(result);
      }
      result := result.(latency := pr.latency);
      if pr.echo.RequestFailed? {
        return Some(result);
      }
      if pr.echo.Unreadable? {
        return None;
      }
      var anonymity := Classify(publicIp, pr.echo.echo);
      if anonymity == Transparent {
        return Some(result.(anonymity := Transparent));
      }
      result := result.(anonymity := anonymity);
      if pr.latency.value <= 7.0 {
        result := result.(speed := MeasuredSpeed(pr.download));
      }
      var location, _ := GetProxyLocation(HostOf(address), pr.answers);
      return Some(result.(location := location, status := Working));
    }

    /** A full check of one survivor, as the run's worker does it: a result, or None where the worker raised. */
    method CheckOne(c: Candidate, pr: Probes) returns (r: Option<Record>)
      requires Valid()
      modifies this
      ensures Valid() && publicIp == old(publicIp)
      ensures r.None? <==> Raises(pr)
      ensures r.Some? ==> ResultFor(publicIp, c, pr, r.value)
    {
      ghost var before := cache;
      r := FullCheck(c.address, c.protocol, pr);
      ghost var location := Locate(before, HostOf(c.address), pr.answers).location;
      OutcomeOfProbes(publicIp, c.address, c.protocol, pr, location);
      OutcomeOwnLocation(publicIp, c.address, c.protocol, pr, location);
    }

    /** Stage one: the pre-check over every candidate, skipped above 10000 of them. */
    static method PreCheckAll(all: seq<Candidate>, connects: (string, int) -> bool) returns (survivors: seq<Candidate>)
      ensures survivors == Survivors(all, connects)
    {
      if |all| > 10000 {
        return all;
      }
      survivors := [];
      var i := 0;
      while i < |all|
        invariant i <= |all| && survivors == Passing(all[..i], connects)
      {
        if PreCheck(all[i], connects) {
          survivors := survivors + [all[i]];
        }
        assert all[..i + 1][..i] == all[..i];
        i := i + 1;
      }
      assert all[..i] == all;
    }

    /**
     * Stage two: one result per survivor whose worker did not raise, in order (a raised
     * worker is logged and puts nothing), then exactly one end marker (None).
     */
    method CheckAll(survivors: seq<Candidate>, probes: Candidate -> Probes) returns (stream: seq<Option<Record>>)
      requires Valid()
      modifies this
      ensures Valid() && publicIp == old(publicIp)
      ensures var done := Completed(survivors, probes);
        && |stream| == |done| + 1 && stream[|done|] == None
        && forall i :: 0 <= i < |done| ==> stream[i].Some? && ResultFor(publicIp, done[i], probes(done[i]), stream[i].value)
    {
      stream := [];
      var k := 0;
      while k < |survivors|
        invariant k <= |survivors| && Valid() && publicIp == old(publicIp)
        invariant |stream| == |Completed(survivors[..k], probes)|
        invariant AllGood(stream, Fits(publicIp, Completed(survivors[..k], probes), probes))
      {
        var c := survivors[k];
        ghost var done := Completed(survivors[..k], probes);
        assert survivors[..k + 1][..k] == survivors[..k];
        var r := CheckOne(c, probes(c));
        if r.Some? {
          FitsGrow(publicIp, stream, done, [c], probes);
          AllGoodStep(stream, r.value, Fits(publicIp, done + [c], probes));
          stream := stream + [r];
        }
        k := k + 1;
      }
      assert survivors[..k] == survivors;
      stream := stream + [None];
    }

    /**
     * A validation run: the survivors of the pre-check, then one result per survivor whose
     * worker did not raise, in order, then exactly one end marker (None), also when nobody
     * survived.
     */
    method ValidateAll(byProtocol: seq<(string, seq<string>)>, connects: (string, int) -> bool, probes: Candidate -> Probes)
      returns (survivors: seq<Candidate>, stream: seq<Option<Record>>)
      requires Valid()
      modifies this
      ensures Valid() && publicIp == old(publicIp)
      ensures survivors == Survivors(Flatten(byProtocol), connects)
      ensures var done := Completed(survivors, probes);
        && |stream| == |done| + 1 && stream[|done|] == None
        && forall i :: 0 <= i < |done| ==> stream[i].Some? && ResultFor(publicIp, done[i], probes(done[i]), stream[i].value)
    {
      survivors := PreCheckAll(Flatten(byProtocol), connects);
      if survivors == [] {
        stream := [None];
        return;
      }
      stream := CheckAll(survivors, probes);
    }
  }
}

/**
 * The online fetcher: how one API page is read into addresses, what the two
 * line-based scrapers keep, and how fetch_all merges the tasks' results into the
 * three protocol buckets.
 *
 * HTTP requests, the thread pool and the HTML scrapers are outside the model; a
 * request comes in as its outcome, and json.loads as the decoded document it yields.
 */
module Fetcher {
  import opened Wrappers
  import opened Text
  import opened Patterns

  // ---------------------------------------------------------------- the address-line pattern

  /** The line filter matches exactly when some prefix of the line is an address with a port. */
  lemma IpPortPrefixIff(s: string)
    ensures IpPortPrefix(s) <==> exists k :: 0 < k <= |s| && IsAddress(s[..k])
  {
    HostSepsNotDigits();
    FieldsPortPrefixIff(s, HostSeps);
  }

  /** Only the start is checked: anything may follow the port, and octets above 255 pass. */
  lemma PrefixOnly(qs: seq<string>, port: string, tail: string)
    requires |qs| == 4 && AllOctets(qs) && |port| >= 1 && AllDigits(port)
    ensures IpPortPrefix(Joined(qs, HostSeps) + port + tail)
  {
    HostSepsNotDigits();
    JoinedPrefix(qs, HostSeps, port, tail);
  }

  // ---------------------------------------------------------------- one API page

  /** One element of a decoded `data` list, as Python's str() renders its `ip` and `port`. */
  datatype Item = Item(ip: string, port: string)

  /**
   * What json.loads makes of a page, as far as the parser looks at it. An element of a
   * `data` list is None when indexing it by `ip` or `port` raises (a missing key, or an
   * element that is not an object).
   */
  datatype Doc =
    | NotJson                              // the text is not JSON: read it line by line
    | DataList(items: seq<Option<Item>>)   // an object whose `data` is a list
    | NoDataList                           // JSON without a list under `data`
    | LookupRaises                         // JSON on which the `data` lookup itself raises

  function AddressOf(item: Item): string {
    item.ip + ":" + item.port
  }

  /** The addresses of a `data` list in order; None when some element raises. */
  function ItemAddresses(items: seq<Option<Item>>): (r: Option<seq<string>>)
    ensures r.Some? <==> forall i :: 0 <= i < |items| ==> items[i].Some?
    ensures r.Some? ==> |r.value| == |items| && forall i :: 0 <= i < |items| ==> r.value[i] == AddressOf(items[i].value)
  {
    if items == [] then Some([])
    else
      match ItemAddresses(items[..|items| - 1])
      case None => None
      case Some(init) =>
        match items[|items| - 1]
        case None => None
        case Some(last) => Some(init + [AddressOf(last)])
  }

  /** The lines, each cleaned by `clean`, that `keep` accepts, in order. */
  function CleanedMatching(lines: seq<string>, clean: string -> string, keep: string -> bool): seq<string> {
    if lines == [] then []
    else
      var last := clean(lines[|lines| - 1]);
      CleanedMatching(lines[..|lines| - 1], clean, keep) + (if keep(last) then [last] else [])
  }

  /** A line is kept, cleaned, exactly when its cleaned text is accepted. */
  lemma {:induction false} CleanedMatchingMembers(lines: seq<string>, clean: string -> string, keep: string -> bool)
    ensures forall x :: x in CleanedMatching(lines, clean, keep) <==> keep(x) && exists l :: l in lines && clean(l) == x
  {
    if lines != [] {
      var init, last := lines[..|lines| - 1], lines[|lines| - 1];
      CleanedMatchingMembers(init, clean, keep);
      assert lines == init + [last];
      forall x | x in CleanedMatching(lines, clean, keep)
        ensures keep(x) && exists l :: l in lines && clean(l) == x
      {
        if x in CleanedMatching(init, clean, keep) {
          var l :| l in init && clean(l) == x;
          assert l in lines;
        } else {
          assert last in lines;
        }
      }
      forall x | keep(x) && exists l :: l in lines && clean(l) == x
        ensures x in CleanedMatching(lines, clean, keep)
      {
        var l :| l in lines && clean(l) == x;
        if l != last {
          assert l in init;
        }
      }
    }
  }

  /** The address lines of a text: the stripped lines that begin with an address and a port. */
  function AddressLines(text: string): seq<string> {
    CleanedMatching(SplitLines(text), Strip, IpPortPrefix)
  }

  /** A line of the text is kept, stripped, exactly when its stripped text begins with an address and a port. */
  lemma AddressLinesMembers(text: string)
    ensures forall x :: x in AddressLines(text) <==> IpPortPrefix(x) && exists l :: l in SplitLines(text) && Strip(l) == x
  {
    CleanedMatchingMembers(SplitLines(text), Strip, IpPortPrefix);
  }

  /**
   * _parse_proxies_from_text: a `data` list gives "ip:port" per element; other JSON and
   * non-JSON text give the address lines. None stands for an exception that escapes.
   */
  function ParseProxiesFromText(text: string, doc: Doc): (r: Option<seq<string>>)
    ensures doc.LookupRaises? ==> r.None?
    ensures doc.DataList? ==> (r.Some? <==> forall i :: 0 <= i < |doc.items| ==> doc.items[i].Some?)
    ensures doc.DataList? && r.Some? ==>
      |r.value| == |doc.items| && forall i :: 0 <= i < |doc.items| ==> r.value[i] == AddressOf(doc.items[i].value)
    ensures doc.NotJson? || doc.NoDataList? ==>
      r.Some? && forall x :: x in r.value <==> IpPortPrefix(x) && exists l :: l in SplitLines(text) && Strip(l) == x
  {
    match doc
    case DataList(items) => ItemAddresses(items)
    case LookupRaises => None
    case _ =>
      AddressLinesMembers(text);
      Some(AddressLines(text))
  }

  /** How a task finished: it returned a list or None, or it raised. */
  datatype Outcome = Returned(value: Option<seq<string>>) | Raised

  /** A page as the request delivered it; Failed is a RequestException, an error status included. */
  datatype Page = Failed | Fetched(text: string, doc: Doc)

  /** _fetch_from_url: None when the request fails or nothing is parsed out of the page. */
  function FetchFromUrl(page: Page): (r: Outcome)
    ensures r == Raised <==> page.Fetched? && ParseProxiesFromText(page.text, page.doc).None?
    ensures r.Returned? && r.value.Some? ==> page.Fetched? && r.value == ParseProxiesFromText(page.text, page.doc) && r.value.value != []
    ensures page.Failed? ==> r == Returned(None)
  {
    match page
    case Failed => Returned(None)
    case Fetched(text, doc) =>
      match ParseProxiesFromText(text, doc)
      case None => Raised
      case Some(proxies) => if proxies == [] then Returned(None) else Returned(Some(proxies))
  }

  // ---------------------------------------------------------------- the 66ip scraper

  /** _scrape_66ip: every address with a 2 to 5 digit port in the page; None when there is none. */
  function Scrape66ip(page: Option<string>): (r: Option<seq<string>>)
    ensures r.Some? ==> r.value != [] && forall k :: 0 <= k < |r.value| ==> ScrapeLen(r.value[k]) == Some(|r.value[k]|)
    ensures r.None? <==> page.None? || FindAllIpPort(page.value) == []
  {
    match page
    case None => None
    case Some(text) =>
      FoundAreMatches(text);
      var found := FindAllIpPort(text);
      if found == [] then None else Some(found)
  }

  // ---------------------------------------------------------------- the fatezero scraper

  /**
   * What json.loads makes of one fatezero line. `kind` is the `type` when it is a JSON
   * string; `host` and `port` are the str() of those values, None when the key is absent.
   * Bad is a line whose decoding or `get` raises.
   */
  datatype FzLine = Bad | FzEntry(kind: Option<string>, host: Option<string>, port: Option<string>)

  /** Python's f-string rendering of a value that may be None. */
  function Shown(v: Option<string>): string {
    v.GetOr("None")
  }

  predicate HttpKind(e: FzLine) {
    e.FzEntry? && (e.kind == Some("http") || e.kind == Some("https"))
  }

  function FzAddress(e: FzLine): string
    requires e.FzEntry?
  {
    Shown(e.host) + ":" + Shown(e.port)
  }

  /** The addresses kept from the lines that mention `host`; None once such a line is bad. */
  function FatezeroScan(lines: seq<string>, decode: string -> FzLine): Option<set<string>> {
    if lines == [] then Some({})
    else
      var last := lines[|lines| - 1];
      match FatezeroScan(lines[..|lines| - 1], decode)
      case None => None
      case Some(found) =>
        if !Contains(last, "host") then Some(found)
        else if decode(last).Bad? then None
        else if HttpKind(decode(last)) then Some(found + {FzAddress(decode(last))})
        else Some(found)
  }

  predicate BadHostLine(lines: seq<string>, decode: string -> FzLine, i: int) {
    0 <= i < |lines| && Contains(lines[i], "host") && decode(lines[i]).Bad?
  }

  predicate KeptLine(lines: seq<string>, decode: string -> FzLine, i: int) {
    0 <= i < |lines| && Contains(lines[i], "host") && HttpKind(decode(lines[i]))
  }

  /** The scan fails exactly when some line that mentions `host` is bad. */
  lemma {:induction false} FatezeroScanFails(lines: seq<string>, decode: string -> FzLine)
    ensures FatezeroScan(lines, decode).None? <==> exists i :: BadHostLine(lines, decode, i)
  {
    if lines != [] {
      var init := lines[..|lines| - 1];
      FatezeroScanFails(init, decode);
      if exists i :: BadHostLine(init, decode, i) {
        var i :| BadHostLine(init, decode, i);
        assert BadHostLine(lines, decode, i);
      }
      if Contains(lines[|lines| - 1], "host") && decode(lines[|lines| - 1]).Bad? {
        assert BadHostLine(lines, decode, |lines| - 1);
      }
      if exists i :: BadHostLine(lines, decode, i) {
        var i :| BadHostLine(lines, decode, i);
        if i < |init| {
          assert BadHostLine(init, decode, i);
        }
      }
    }
  }

  /** When the scan succeeds it keeps exactly the http and https entries of the lines that mention `host`. */
  lemma {:induction false} FatezeroScanKeeps(lines: seq<string>, decode: string -> FzLine)
    requires FatezeroScan(lines, decode).Some?
    ensures forall x :: x in FatezeroScan(lines, decode).value <==>
      exists i :: KeptLine(lines, decode, i) && x == FzAddress(decode(lines[i]))
  {
    if lines != [] {
      var init := lines[..|lines| - 1];
      FatezeroScanKeeps(init, decode);
      var found := FatezeroScan(lines, decode).value;
      forall x | x in found
        ensures exists i :: KeptLine(lines, decode, i) && x == FzAddress(decode(lines[i]))
      {
        if x in FatezeroScan(init, decode).value {
          var i :| KeptLine(init, decode, i) && x == FzAddress(decode(init[i]));
          assert lines[i] == init[i];
        } else {
          assert KeptLine(lines, decode, |lines| - 1);
        }
      }
      forall x | exists i :: KeptLine(lines, decode, i) && x == FzAddress(decode(lines[i]))
        ensures x in found
      {
        var i :| KeptLine(lines, decode, i) && x == FzAddress(decode(lines[i]));
        if i < |init| {
          assert KeptLine(init, decode, i);
        }
      }
    }
  }

  /** What _scrape_fatezero returns for a page: None on a failed request, a bad line, or nothing kept. */
  function FatezeroResult(page: Option<string>, decode: string -> FzLine): Option<set<string>> {
    match page
    case None => None
    case Some(text) =>
      match FatezeroScan(Split(text, '\n'), decode)
      case None => None
      case Some(found) => if found == {} then None else Some(found)
  }

  /** _scrape_fatezero, line by line; the set it returns stands for the list the source makes of it. */
  method ScrapeFatezero(page: Option<string>, decode: string -> FzLine) returns (r: Option<set<string>>)
    ensures r == FatezeroResult(page, decode)
  {
    if page.None? {
      return None;
    }
    var lines := Split(page.value, '\n');
    var proxies: set<string> := {};
    var i := 0;
    while i < |lines|
      invariant 0 <= i <= |lines|
      invariant FatezeroScan(lines[..i], decode) == Some(proxies)
    {
      assert lines[..i + 1][..i] == lines[..i];
      var line := lines[i];
      if Contains(line, "host") {
        var info := decode(line);
        if info.Bad? {
          FatezeroBadPrefix(lines, decode, i + 1);
          return None;
        }
        if info.kind == Some("http") || info.kind == Some("https") {
          proxies := proxies + {Shown(info.host) + ":" + Shown(info.port)};
        }
      }
      i := i + 1;
    }
    assert lines[..i] == lines;
    if proxies == {} {
      return None;
    }
    return Some(proxies);
  }

  /** A bad line in a prefix makes the whole scan fail. */
  lemma FatezeroBadPrefix(lines: seq<string>, decode: string -> FzLine, n: nat)
    requires n <= |lines| && FatezeroScan(lines[..n], decode).None?
    ensures FatezeroScan(lines, decode).None?
  {
    FatezeroScanFails(lines[..n], decode);
    var i :| BadHostLine(lines[..n], decode, i);
    assert BadHostLine(lines, decode, i);
    FatezeroScanFails(lines, decode);
  }

  // ---------------------------------------------------------------- fetch_all

  /** The protocols of the online source table and of the scrapers. */
  datatype Protocol = Http | Https | Socks4 | Socks5

  /** A finished task: the protocol it was submitted under and how it ended. */
  datatype Task = Task(protocol: Protocol, outcome: Outcome)

  /** The result of fetch_all: the keys are exactly http, socks4 and socks5. */
  datatype Buckets = Buckets(http: set<string>, socks4: set<string>, socks5: set<string>)

  /** What a task adds: the elements of a non-empty returned list, nothing otherwise. */
  function Contribution(o: Outcome): set<string> {
    match o
    case Returned(Some(proxies)) => set x | x in proxies
    case _ => {}
  }

  /** The bucket each protocol lands in: https results are merged into http. */
  function BucketOf(p: Protocol): Protocol {
    if p == Https then Http else p
  }

  /** Everything the tasks of one bucket contributed. */
  function Gathered(tasks: seq<Task>, bucket: Protocol): set<string> {
    if tasks == [] then {}
    else
      var last := tasks[|tasks| - 1];
      Gathered(tasks[..|tasks| - 1], bucket) + (if BucketOf(last.protocol) == bucket then Contribution(last.outcome) else {})
  }

  /** An address is in a bucket exactly when some task of that bucket returned it. */
  lemma {:induction false} GatheredMembers(tasks: seq<Task>, bucket: Protocol)
    ensures forall x :: x in Gathered(tasks, bucket) <==>
      exists t :: t in tasks && BucketOf(t.protocol) == bucket && x in Contribution(t.outcome)
  {
    if tasks != [] {
      var init := tasks[..|tasks| - 1];
      GatheredMembers(init, bucket);
      assert tasks == init + [tasks[|tasks| - 1]];
    }
  }

  /** The order in which the tasks complete does not matter. */
  lemma GatheredOrderFree(tasks: seq<Task>, other: seq<Task>, bucket: Protocol)
    requires multiset(tasks) == multiset(other)
    ensures Gathered(tasks, bucket) == Gathered(other, bucket)
  {
    GatheredMembers(tasks, bucket);
    GatheredMembers(other, bucket);
    forall t
      ensures t in tasks <==> t in other
    {
      assert t in tasks <==> t in multiset(tasks);
      assert t in other <==> t in multiset(other);
    }
  }

  /** fetch_all's merge over the tasks in the order they complete. */
  method FetchAll(tasks: seq<Task>) returns (b: Buckets)
    ensures b == Buckets(Gathered(tasks, Http), Gathered(tasks, Socks4), Gathered(tasks, Socks5))
  {
    var http, socks4, socks5 := {}, {}, {};
    var i := 0;
    while i < |tasks|
      invariant 0 <= i <= |tasks|
      invariant http == Gathered(tasks[..i], Http)
      invariant socks4 == Gathered(tasks[..i], Socks4)
      invariant socks5 == Gathered(tasks[..i], Socks5)
    {
      assert tasks[..i + 1][..i] == tasks[..i];
      var found := Contribution(tasks[i].outcome);
      match tasks[i].protocol {
        case Http => http := http + found;
        case Https => http := http + found;
        case Socks4 => socks4 := socks4 + found;
        case Socks5 => socks5 := socks5 + found;
      }
      i := i + 1;
    }
    assert tasks[..i] == tasks;
    b := Buckets(http, socks4, socks5);
  }

  /** A task that returned None, an empty list, or raised changes no bucket. */
  lemma IgnoredTask(tasks: seq<Task>, t: Task, bucket: Protocol)
    requires t.outcome == Raised || t.outcome == Returned(None) || t.outcome == Returned(Some([]))
    ensures Gathered(tasks + [t], bucket) == Gathered(tasks, bucket)
  {
    assert (tasks + [t])[..|tasks|] == tasks;
  }
}

// The standalone collector in hq.py: it reads several public lists, cleans each
// line down to "host:port", infers the protocol of the line, and writes the HTTP
// and SOCKS5 addresses, each with its scheme, to two sorted files.

module Hq {
  import opened Wrappers
  import opened Text
  import opened Sorting

  // ---------------------------------------------------------------- clean_proxy_line

  /** What clean_proxy_line hands back: exactly one colon, no scheme or credentials, stripped. */
  predicate CleanAddress(x: string) {
    && |Split(x, ':')| == 2
    && '@' !in x && !Contains(x, "//")
    && x != [] && !IsSpace(x[0]) && !IsSpace(x[|x| - 1])
  }

  /** The host and port fields of a clean address are both non-empty. */
  predicate BothFields(x: string) {
    var f := Split(x, ':');
    |f| == 2 && f[0] != [] && f[1] != []
  }

  /** Everything after the last occurrence of `sep`, when there is one. */
  function After(s: string, sep: string): string
    requires |sep| > 0
  {
    if Contains(s, sep) then LastPiece(s, sep) else s
  }

  /** The first two colon fields, when there are more than two. */
  function FirstTwoFields(s: string): string {
    var parts := Split(s, ':');
    if |parts| > 2 then parts[0] + ":" + parts[1] else s
  }

  /** The text the final test of clean_proxy_line looks at. */
  function Trimmed(line: string): string {
    FirstTwoFields(After(After(Strip(line), "//"), "@"))
  }

  /** Both colon fields of the trimmed text are non-empty (checked before the last strip). */
  predicate Accepts(d: string) {
    var f := Split(d, ':');
    ':' in d && |f| >= 2 && f[0] != [] && f[1] != []
  }

  /**
   * clean_proxy_line: strip, keep what follows the last "//" and then the last '@',
   * cut to the first two colon fields, and give the stripped result when both
   * fields were non-empty.
   */
  function CleanProxyLine(line: string): (r: Option<string>)
    ensures r.Some? <==> Accepts(Trimmed(line))
    ensures r.Some? ==> CleanAddress(r.value)
  {
    var d := Trimmed(line);
    if Accepts(d) then
      CleanShape(line);
      Some(Strip(d))
    else
      None
  }

  lemma AfterOf(s: string, sep: string)
    requires |sep| > 0
    ensures var r := After(s, sep);
      !Contains(r, sep) && |r| <= |s| && r == s[|s| - |r|..]
  {
    if Contains(s, sep) {
      LastPieceOf(s, sep);
    }
  }

  /** Cutting at two separators in turn leaves a suffix holding neither. */
  lemma AfterBothOf(s: string, sep1: string, sep2: string)
    requires |sep1| > 0 && |sep2| > 0
    ensures var r := After(After(s, sep1), sep2);
      !Contains(r, sep1) && !Contains(r, sep2)
  {
    AfterOf(s, sep1);
    AfterKeepsOut(After(s, sep1), sep2, sep1);
  }

  /** Cutting a text keeps out what the text kept out. */
  lemma AfterKeepsOut(b: string, sep: string, other: string)
    requires |sep| > 0 && !Contains(b, other)
    ensures !Contains(After(b, sep), sep) && !Contains(After(b, sep), other)
  {
    AfterOf(b, sep);
    var c := After(b, sep);
    assert c == b[|b| - |c|..|b|];
    NotContainsSlice(b, other, |b| - |c|, |b|);
  }

  lemma FirstTwoFieldsOf(s: string)
    ensures var r := FirstTwoFields(s);
      StartsWith(s, r) && (':' in s ==> |Split(r, ':')| == 2)
  {
    var parts := Split(s, ':');
    SplitManyIffSep(s, ':');
    if |parts| > 2 {
      JoinSplit(s, ':');
      assert Join(parts, ':') == parts[0] + [':'] + (parts[1] + [':'] + Join(parts[2..], ':'));
      assert s == (parts[0] + ":" + parts[1]) + ([':'] + Join(parts[2..], ':'));
      SplitPrefix(parts[0], parts[1], ':');
      SplitNoSep(parts[1], ':');
    }
  }

  /** Cutting to two fields keeps out what the text kept out. */
  lemma FirstTwoFieldsFree(c: string, sep1: string, sep2: string)
    requires !Contains(c, sep1) && !Contains(c, sep2)
    ensures var d := FirstTwoFields(c);
      !Contains(d, sep1) && !Contains(d, sep2) && (':' in d ==> |Split(d, ':')| == 2)
  {
    var d := FirstTwoFields(c);
    FirstTwoFieldsOf(c);
    assert d == c[..|d|];
    NotContainsSlice(c, sep1, 0, |d|);
    NotContainsSlice(c, sep2, 0, |d|);
    if ':' in d {
      var k :| 0 <= k < |d| && d[k] == ':';
      assert c[k] == ':';
    }
  }

  /** The trimmed text holds no "//" and no "@", and has two colon fields when it has a colon. */
  lemma TrimmedOf(line: string)
    ensures var d := Trimmed(line);
      !Contains(d, "@") && !Contains(d, "//") && (':' in d ==> |Split(d, ':')| == 2)
  {
    AfterBothOf(Strip(line), "//", "@");
    FirstTwoFieldsFree(After(After(Strip(line), "//"), "@"), "//", "@");
  }

  /** Stripping text with two colon fields keeps two colon fields and keeps out what it kept out. */
  lemma StripTwoFields(d: string, sep1: string, sep2: string)
    requires |Split(d, ':')| == 2 && !Contains(d, sep1) && !Contains(d, sep2)
    ensures var x := Strip(d);
      |Split(x, ':')| == 2 && !Contains(x, sep1) && !Contains(x, sep2)
  {
    StripKeepsFields(d);
    StripKeepsOut(d, sep1);
    StripKeepsOut(d, sep2);
  }

  lemma StripKeepsOut(d: string, sep: string)
    requires !Contains(d, sep)
    ensures !Contains(Strip(d), sep)
  {
    var i := StripSlice(d);
    NotContainsSlice(d, sep, i, i + |Strip(d)|);
  }

  lemma StripKeepsFields(d: string)
    requires |Split(d, ':')| == 2
    ensures |Split(Strip(d), ':')| == 2
  {
    var f := Split(d, ':');
    JoinSplit(d, ':');
    assert d == f[0] + [':'] + f[1];
    StripAround(f[0], ':', f[1]);
    var h := TrimLeft(f[0]);
    var p := TrimRight(f[1]);
    assert h == f[0][|f[0]| - |h|..] && p == f[1][..|p|];
    assert ':' !in h && ':' !in p;
    SplitPrefix(h, p, ':');
    SplitNoSep(p, ':');
  }

  lemma CleanShape(line: string)
    requires Accepts(Trimmed(line))
    ensures CleanAddress(Strip(Trimmed(line)))
  {
    var d := Trimmed(line);
    TrimmedOf(line);
    StripTwoFields(d, "//", "@");
    ContainsChar(Strip(d), '@');
  }

  /** A clean address with both fields comes back unchanged: cleaning is idempotent. */
  lemma CleanFixedPoint(x: string)
    requires CleanAddress(x) && BothFields(x)
    ensures CleanProxyLine(x) == Some(x)
  {
    StripUnchanged(x);
    SplitManyIffSep(x, ':');
    assert Trimmed(x) == x;
  }

  lemma CleanIdempotent(line: string)
    requires CleanProxyLine(line).Some? && BothFields(CleanProxyLine(line).value)
    ensures CleanProxyLine(CleanProxyLine(line).value) == CleanProxyLine(line)
  {
    CleanFixedPoint(CleanProxyLine(line).value);
  }

  /** Fields after the port (a country, a speed) are cut off. */
  lemma CleanDropsExtraFields(x: string, more: string)
    requires CleanAddress(x) && BothFields(x)
    requires '@' !in more && !Contains(x + ":" + more, "//")
    requires more == [] || !IsSpace(more[|more| - 1])
    ensures CleanProxyLine(x + ":" + more) == Some(x)
  {
    var line := x + ":" + more;
    StripUnchanged(line);
    ContainsChar(line, '@');
    FirstTwoOfLonger(x, more);
    assert Trimmed(line) == x;
    SplitManyIffSep(x, ':');
  }

  lemma FirstTwoOfLonger(x: string, more: string)
    requires |Split(x, ':')| == 2
    ensures FirstTwoFields(x + ":" + more) == x
  {
    var f := Split(x, ':');
    JoinSplit(x, ':');
    assert x == f[0] + [':'] + f[1];
    assert x + ":" + more == f[0] + [':'] + (f[1] + [':'] + more);
    SplitPrefix(f[0], f[1] + [':'] + more, ':');
    SplitPrefix(f[1], more, ':');
  }

  /** Credentials before an '@' are cut off. */
  lemma CleanDropsCredentials(cred: string, x: string)
    requires CleanAddress(x) && BothFields(x)
    requires !Contains(cred + "@" + x, "//")
    requires cred == [] || !IsSpace(cred[0])
    ensures CleanProxyLine(cred + "@" + x) == Some(x)
  {
    var line := cred + "@" + x;
    StripUnchanged(line);
    LastPieceAfter(cred, '@', x);
    assert OccursAt(line, "@", |cred|);
    assert After(line, "@") == x;
    SplitManyIffSep(x, ':');
    assert Trimmed(line) == x;
  }

  // ---------------------------------------------------------------- deduce_protocol

  /**
   * deduce_protocol: a line that mentions "socks" in any case is SOCKS5, one that
   * mentions "http" is HTTP, and any other line takes the source's default.
   */
  function DeduceProtocol(line: string, default: string): string {
    var low := Lower(line);
    if Contains(low, "socks5") || Contains(low, "socks") then "socks5"
    else if Contains(low, "socks4") then "socks4"
    else if Contains(low, "http") then "http"
    else default
  }

  /** The three outcomes of deduce_protocol; the socks4 branch is never taken. */
  lemma DeduceProtocolCases(line: string, default: string)
    ensures var r := DeduceProtocol(line, default);
      && (Contains(Lower(line), "socks") ==> r == "socks5")
      && (!Contains(Lower(line), "socks") && Contains(Lower(line), "http") ==> r == "http")
      && (!Contains(Lower(line), "socks") && !Contains(Lower(line), "http") ==> r == default)
  {
    var low := Lower(line);
    if Contains(low, "socks5") {
      SocksPrefix(low, "socks5");
    }
    if Contains(low, "socks4") {
      SocksPrefix(low, "socks4");
    }
  }

  lemma SocksPrefix(s: string, marker: string)
    requires Contains(s, marker) && |marker| >= 5 && marker[..5] == "socks"
    ensures Contains(s, "socks")
  {
    ContainsPrefix(s, marker, 5);
  }

  /** A line marked "socks4" goes with the SOCKS5 proxies: the socks4 branch is never reached. */
  lemma SocksFourIsFive(line: string, default: string)
    requires Contains(Lower(line), "socks4")
    ensures DeduceProtocol(line, default) == "socks5"
  {
    SocksPrefix(Lower(line), "socks4");
    DeduceProtocolCases(line, default);
  }

  /** The result is "socks4" only when the source's default is. */
  lemma NeverSocksFour(line: string, default: string)
    requires DeduceProtocol(line, default) == "socks4"
    ensures default == "socks4"
  {
    DeduceProtocolCases(line, default);
  }

  lemma LowerTwice(s: string)
    ensures Lower(Lower(s)) == Lower(s)
  {
  }

  /** The inference ignores letter case. */
  lemma DeduceIgnoresCase(line: string, default: string)
    ensures DeduceProtocol(Lower(line), default) == DeduceProtocol(line, default)
  {
    LowerTwice(line);
  }

  // ---------------------------------------------------------------- sources

  /** How the lines of a source are read. */
  datatype Parser = PlainText | JsonListing | JsonLines

  /** One entry of the source table; `protocol` is the default for unmarked lines. */
  datatype Source = Source(name: string, parser: Parser, protocol: string)

  /** The source table of hq.py, in its order (the URLs are not modelled). */
  const Sources: seq<Source> := [
    Source("TheSpeedX/PROXY-List", PlainText, "socks5"),
    Source("hookzof/socks5_list", PlainText, "socks5"),
    Source("ProxyScraper/ProxyScraper", PlainText, "socks5"),
    Source("proxifly/free-proxy-list", PlainText, "http"),
    Source("zloi-user/hideip.me", PlainText, "socks5"),
    Source("gfpcom/free-proxy-list", PlainText, "socks5"),
    Source("monosans/proxy-list", JsonListing, "socks5"),
    Source("fate0/proxylist", JsonLines, "http")
  ]

  /**
   * What json.loads followed by .get("host") and .get("port") gives for one line:
   * Malformed when json.loads raises; otherwise each field as the f-string renders
   * it, or None when it is missing or falsy.
   */
  datatype JsonLine = Malformed | Object(host: Option<string>, port: Option<string>)

  /** The address a line cleans to, or None when the line is skipped. */
  function Cleaned(line: string, parser: Parser, decode: string -> JsonLine): (r: Option<string>)
    ensures parser != JsonLines ==> r == CleanProxyLine(line)
    ensures parser == JsonLines ==> (r.Some? <==> decode(line).Object? && decode(line).host.Some? && decode(line).port.Some?)
    ensures parser == JsonLines && r.Some? ==> r.value == decode(line).host.value + ":" + decode(line).port.value
  {
    match parser
    case PlainText => CleanProxyLine(line)
    case JsonListing => CleanProxyLine(line)
    case JsonLines =>
      match decode(line)
      case Malformed => None
      case Object(host, port) => if host.Some? && port.Some? then Some(host.value + ":" + port.value) else None
  }

  /** The two output lists. */
  datatype Target = HttpList | Socks5List

  datatype Entry = Entry(target: Target, proxy: string)

  /** Where a line with this protocol and this cleaned address goes (lines of any other protocol are dropped). */
  function Route(protocol: string, cleaned: Option<string>): Option<Entry> {
    if cleaned.None? || cleaned.value == [] then None
    else if protocol == "http" then Some(Entry(HttpList, "http://" + cleaned.value))
    else if protocol == "socks5" then Some(Entry(Socks5List, "socks5://" + cleaned.value))
    else None
  }

  /** Where one line of a source goes, if anywhere: blank lines and lines of any other protocol are dropped. */
  function Place(line: string, src: Source, decode: string -> JsonLine): Option<Entry> {
    if Strip(line) == [] then None
    else Route(DeduceProtocol(line, src.protocol), Cleaned(line, src.parser, decode))
  }

  function SchemeLen(t: Target): nat {
    match t
    case HttpList => 7
    case Socks5List => 9
  }

  /** A routed proxy is its list's scheme followed by the cleaned address. */
  lemma RouteShape(protocol: string, cleaned: Option<string>)
    requires Route(protocol, cleaned).Some?
    ensures var e := Route(protocol, cleaned).value;
      && cleaned.Some? && cleaned.value != []
      && (e.target == HttpList <==> protocol == "http")
      && (e.target == Socks5List <==> protocol == "socks5")
      && e.proxy == (if e.target == HttpList then "http://" else "socks5://") + cleaned.value
      && |e.proxy| == SchemeLen(e.target) + |cleaned.value|
  {
  }

  /** Every placed proxy carries the scheme of its list; from a text source the rest is a clean address. */
  lemma PlaceShape(line: string, src: Source, decode: string -> JsonLine)
    requires Place(line, src, decode).Some?
    ensures var e := Place(line, src, decode).value;
      && Strip(line) != []
      && (e.target == HttpList ==> StartsWith(e.proxy, "http://") && DeduceProtocol(line, src.protocol) == "http")
      && (e.target == Socks5List ==> StartsWith(e.proxy, "socks5://") && DeduceProtocol(line, src.protocol) == "socks5")
      && (src.parser != JsonLines ==> CleanAddress(e.proxy[SchemeLen(e.target)..]))
  {
    var c := Cleaned(line, src.parser, decode);
    RouteShape(DeduceProtocol(line, src.protocol), c);
    var e := Place(line, src, decode).value;
    assert e.proxy[SchemeLen(e.target)..] == c.value;
  }

  lemma AfterEmpty(sep: string)
    requires |sep| > 0
    ensures After([], sep) == []
  {
    assert !OccursAt([], sep, 0);
  }

  /** A blank line cleans to nothing. */
  lemma CleanBlank(line: string)
    requires Strip(line) == []
    ensures CleanProxyLine(line).None?
  {
    AfterEmpty("//");
    AfterEmpty("@");
    assert Trimmed(line) == [];
  }

  /** A cleanable line that says "socks4" joins the SOCKS5 list, whatever the source's default. */
  lemma SocksFourLine(line: string, src: Source, decode: string -> JsonLine)
    requires src.parser != JsonLines && CleanProxyLine(line).Some?
    requires Contains(Lower(line), "socks4")
    ensures Place(line, src, decode) == Some(Entry(Socks5List, "socks5://" + CleanProxyLine(line).value))
  {
    SocksPrefix(Lower(line), "socks4");
    SocksLine(line, src, decode);
  }

  lemma SocksLine(line: string, src: Source, decode: string -> JsonLine)
    requires src.parser != JsonLines && CleanProxyLine(line).Some?
    requires Contains(Lower(line), "socks")
    ensures Place(line, src, decode) == Some(Entry(Socks5List, "socks5://" + CleanProxyLine(line).value))
  {
    DeduceProtocolCases(line, src.protocol);
    if Strip(line) == [] {
      CleanBlank(line);
    }
    PlaceRoute(line, src, decode, "socks5", CleanProxyLine(line));
  }

  lemma PlaceRoute(line: string, src: Source, decode: string -> JsonLine, protocol: string, c: Option<string>)
    requires Strip(line) != [] && DeduceProtocol(line, src.protocol) == protocol && Cleaned(line, src.parser, decode) == c
    ensures Place(line, src, decode) == Route(protocol, c)
  {
  }

  /** An unmarked line of a source whose default is neither http nor socks5 is dropped. */
  lemma OtherDefaultDropped(line: string, src: Source, decode: string -> JsonLine)
    requires src.protocol != "http" && src.protocol != "socks5"
    requires !Contains(Lower(line), "socks") && !Contains(Lower(line), "http")
    ensures Place(line, src, decode).None?
  {
    DeduceProtocolCases(line, src.protocol);
  }

  // ---------------------------------------------------------------- one source

  /** The lines the loop visits: the stripped page split on line feeds. */
  function SourceLines(text: string): seq<string> {
    Split(Strip(text), '\n')
  }

  /** How the lines of one source are placed. */
  function Placer(src: Source, decode: string -> JsonLine): string -> Option<Entry> {
    line => Place(line, src, decode)
  }

  /** What the lines put into one list. */
  function Listed(lines: seq<string>, place: string -> Option<Entry>, t: Target): set<string>
    decreases |lines|
  {
    if lines == [] then {}
    else
      var last := lines[|lines| - 1];
      Listed(lines[..|lines| - 1], place, t)
        + match place(last)
          case Some(e) => if e.target == t then {e.proxy} else {}
          case None => {}
  }

  /** A proxy is listed exactly when some line is placed there as that proxy. */
  lemma {:induction false} ListedMembers(lines: seq<string>, place: string -> Option<Entry>, t: Target, x: string)
    ensures x in Listed(lines, place, t) <==> exists l :: l in lines && place(l) == Some(Entry(t, x))
    decreases |lines|
  {
    if lines != [] {
      var init := lines[..|lines| - 1];
      var last := lines[|lines| - 1];
      ListedMembers(init, place, t, x);
      assert lines == init + [last];
      if x in Listed(lines, place, t) && x !in Listed(init, place, t) {
        assert place(last) == Some(Entry(t, x));
      }
      if exists l :: l in lines && place(l) == Some(Entry(t, x)) {
        var l :| l in lines && place(l) == Some(Entry(t, x));
        if l != last {
          assert l in init;
        }
      }
    }
  }

  /** Placing the lines one by one into the two sets. */
  method AddLines(lines: seq<string>, place: string -> Option<Entry>, http: set<string>, socks5: set<string>)
    returns (http': set<string>, socks5': set<string>)
    ensures http' == http + Listed(lines, place, HttpList)
    ensures socks5' == socks5 + Listed(lines, place, Socks5List)
  {
    http', socks5' := http, socks5;
    var i := 0;
    while i < |lines|
      invariant 0 <= i <= |lines|
      invariant http' == http + Listed(lines[..i], place, HttpList)
      invariant socks5' == socks5 + Listed(lines[..i], place, Socks5List)
    {
      assert lines[..i + 1][..i] == lines[..i];
      match place(lines[i]) {
        case Some(e) =>
          if e.target == HttpList {
            http' := http' + {e.proxy};
          } else {
            socks5' := socks5' + {e.proxy};
          }
        case None =>
      }
      i := i + 1;
    }
    assert lines[..i] == lines;
  }

  lemma GrowthCount(a: set<string>, b: set<string>)
    requires a <= b
    ensures |b| - |a| == |b - a|
  {
    assert b == a + (b - a);
  }

  /**
   * One iteration of the source loop: every line of the page is placed, and the
   * two counts printed afterwards are the numbers of proxies new to each list.
   */
  method AddBatch(lines: seq<string>, place: string -> Option<Entry>, http: set<string>, socks5: set<string>)
    returns (http': set<string>, socks5': set<string>, newHttp: nat, newSocks5: nat)
    ensures http' == http + Listed(lines, place, HttpList)
    ensures socks5' == socks5 + Listed(lines, place, Socks5List)
    ensures newHttp == |http' - http| && newSocks5 == |socks5' - socks5|
  {
    http', socks5' := AddLines(lines, place, http, socks5);
    GrowthCount(http, http');
    GrowthCount(socks5, socks5');
    newHttp := |http'| - |http|;
    newSocks5 := |socks5'| - |socks5|;
  }

  /**
   * The counts a source prints are zero exactly when every proxy it lists was already
   * known; so a page read again, or one that only repeats earlier sources, reports 0 and 0.
   */
  lemma ReplayAddsNothing(lines: seq<string>, place: string -> Option<Entry>, http: set<string>, socks5: set<string>)
    ensures |(http + Listed(lines, place, HttpList)) - http| == 0 <==> Listed(lines, place, HttpList) <= http
    ensures |(socks5 + Listed(lines, place, Socks5List)) - socks5| == 0 <==> Listed(lines, place, Socks5List) <= socks5
  {
    NewAreUnlisted(http, Listed(lines, place, HttpList));
    NewAreUnlisted(socks5, Listed(lines, place, Socks5List));
  }

  /** What a union adds is what was not there before. */
  lemma NewAreUnlisted(seen: set<string>, more: set<string>)
    ensures (seen + more) - seen == more - seen
    ensures more - seen == {} <==> more <= seen
  {
    if more - seen == {} {
      forall x | x in more
        ensures x in seen
      {
        assert x !in more - seen;
      }
    }
  }

  // ---------------------------------------------------------------- all sources and the files

  /** The placement of each source in the table. */
  function Placers(sources: seq<Source>, decode: string -> JsonLine): (ps: seq<string -> Option<Entry>>)
    ensures |ps| == |sources| && forall i :: 0 <= i < |sources| ==> ps[i] == Placer(sources[i], decode)
  {
    seq(|sources|, i requires 0 <= i < |sources| => Placer(sources[i], decode))
  }

  /**
   * The lines of every page; pages[i] is None when the request for the i-th source
   * raised, which skips that source.
   */
  function PageLines(pages: seq<Option<string>>): (batches: seq<Option<seq<string>>>)
    ensures |batches| == |pages|
    ensures forall i :: 0 <= i < |pages| ==> batches[i] == if pages[i].Some? then Some(SourceLines(pages[i].value)) else None
  {
    seq(|pages|, i requires 0 <= i < |pages| => if pages[i].Some? then Some(SourceLines(pages[i].value)) else None)
  }

  /** What every fetched batch of lines puts into one list. */
  function Collected(batches: seq<Option<seq<string>>>, places: seq<string -> Option<Entry>>, t: Target): set<string>
    requires |batches| == |places|
    decreases |batches|
  {
    if batches == [] then {}
    else
      var n := |batches| - 1;
      Collected(batches[..n], places[..n], t)
        + match batches[n]
          case Some(lines) => Listed(lines, places[n], t)
          case None => {}
  }

  /** A proxy is collected exactly when some fetched source lists it. */
  lemma {:induction false} CollectedMembers(batches: seq<Option<seq<string>>>, places: seq<string -> Option<Entry>>, t: Target, x: string)
    requires |batches| == |places|
    ensures x in Collected(batches, places, t) <==>
      exists i :: 0 <= i < |batches| && batches[i].Some? && x in Listed(batches[i].value, places[i], t)
    decreases |batches|
  {
    if batches != [] {
      var n := |batches| - 1;
      CollectedMembers(batches[..n], places[..n], t, x);
      if exists i :: 0 <= i < |batches| && batches[i].Some? && x in Listed(batches[i].value, places[i], t) {
        var i :| 0 <= i < |batches| && batches[i].Some? && x in Listed(batches[i].value, places[i], t);
        if i < n {
          assert batches[..n][i] == batches[i] && places[..n][i] == places[i];
        }
      }
      if x in Collected(batches[..n], places[..n], t) {
        var i :| 0 <= i < n && batches[..n][i].Some? && x in Listed(batches[..n][i].value, places[..n][i], t);
        assert batches[i] == batches[..n][i] && places[i] == places[..n][i];
      }
    }
  }

  /** save_proxies_to_file: nothing is written for an empty set, otherwise one sorted line per proxy. */
  method SaveProxies(proxies: set<string>) returns (file: Option<seq<string>>)
    ensures file.None? <==> proxies == {}
    ensures file.Some? ==> Increasing(file.value) && |file.value| == |proxies|
    ensures file.Some? ==> forall y :: y in file.value <==> y in proxies
  {
    if proxies == {} {
      return None;
    }
    var lines := SortedListing(proxies);
    return Some(lines);
  }

  /**
   * The two counts printed for each source that could be fetched, in table order: how many
   * proxies it lists for each list that the sources before it had not.
   */
  function Added(batches: seq<Option<seq<string>>>, places: seq<string -> Option<Entry>>): seq<(nat, nat)>
    requires |batches| == |places|
    decreases |batches|
  {
    if batches == [] then []
    else
      var n := |batches| - 1;
      Added(batches[..n], places[..n]) +
        match batches[n]
        case Some(lines) =>
          [(|Listed(lines, places[n], HttpList) - Collected(batches[..n], places[..n], HttpList)|,
            |Listed(lines, places[n], Socks5List) - Collected(batches[..n], places[..n], Socks5List)|)]
        case None => []
  }

  lemma AddedStep(batches: seq<Option<seq<string>>>, places: seq<string -> Option<Entry>>, i: nat)
    requires |batches| == |places| && i < |batches|
    ensures Added(batches[..i + 1], places[..i + 1]) ==
      Added(batches[..i], places[..i]) +
        if batches[i].Some? then
          [(|Listed(batches[i].value, places[i], HttpList) - Collected(batches[..i], places[..i], HttpList)|,
            |Listed(batches[i].value, places[i], Socks5List) - Collected(batches[..i], places[..i], Socks5List)|)]
        else []
  {
    assert batches[..i + 1][..i] == batches[..i] && places[..i + 1][..i] == places[..i];
  }

  lemma CollectedStep(batches: seq<Option<seq<string>>>, places: seq<string -> Option<Entry>>, i: nat, t: Target)
    requires |batches| == |places| && i < |batches|
    ensures Collected(batches[..i + 1], places[..i + 1], t) ==
      Collected(batches[..i], places[..i], t) + (if batches[i].Some? then Listed(batches[i].value, places[i], t) else {})
  {
    assert batches[..i + 1][..i] == batches[..i] && places[..i + 1][..i] == places[..i];
  }

  /** One more source: the lists grow by what it lists, and its counts are that growth. */
  lemma SourceStep(batches: seq<Option<seq<string>>>, places: seq<string -> Option<Entry>>, i: nat,
                   http: set<string>, socks5: set<string>)
    requires |batches| == |places| && i < |batches|
    requires http == Collected(batches[..i], places[..i], HttpList)
    requires socks5 == Collected(batches[..i], places[..i], Socks5List)
    ensures batches[i].None? ==>
      && Collected(batches[..i + 1], places[..i + 1], HttpList) == http
      && Collected(batches[..i + 1], places[..i + 1], Socks5List) == socks5
      && Added(batches[..i + 1], places[..i + 1]) == Added(batches[..i], places[..i])
    ensures batches[i].Some? ==>
      var h := http + Listed(batches[i].value, places[i], HttpList);
      var s := socks5 + Listed(batches[i].value, places[i], Socks5List);
      && Collected(batches[..i + 1], places[..i + 1], HttpList) == h
      && Collected(batches[..i + 1], places[..i + 1], Socks5List) == s
      && Added(batches[..i + 1], places[..i + 1]) == Added(batches[..i], places[..i]) + [(|h - http|, |s - socks5|)]
  {
    CollectedStep(batches, places, i, HttpList);
    CollectedStep(batches, places, i, Socks5List);
    AddedStep(batches, places, i);
    if batches[i].Some? {
      NewAreUnlisted(http, Listed(batches[i].value, places[i], HttpList));
      NewAreUnlisted(socks5, Listed(batches[i].value, places[i], Socks5List));
    }
  }

  /** The source loop over any table of placements. */
  method CollectAll(batches: seq<Option<seq<string>>>, places: seq<string -> Option<Entry>>)
    returns (http: set<string>, socks5: set<string>, added: seq<(nat, nat)>)
    requires |batches| == |places|
    ensures http == Collected(batches, places, HttpList)
    ensures socks5 == Collected(batches, places, Socks5List)
    ensures added == Added(batches, places)
  {
    http, socks5 := {}, {};
    added := [];
    var i := 0;
    while i < |batches|
      invariant 0 <= i <= |batches|
      invariant http == Collected(batches[..i], places[..i], HttpList)
      invariant socks5 == Collected(batches[..i], places[..i], Socks5List)
      invariant added == Added(batches[..i], places[..i])
    {
      SourceStep(batches, places, i, http, socks5);
      match batches[i] {
        case Some(lines) =>
          var h, s, nh, ns := AddBatch(lines, places[i], http, socks5);
          added := added + [(nh, ns)];
          http, socks5 := h, s;
        case None =>
      }
      i := i + 1;
    }
    assert batches[..i] == batches && places[..i] == places;
  }

  /**
   * fetch_and_save_proxies: run every source of the table in order, then write
   * http.txt from the HTTP list and git.txt from the SOCKS5 list. `added` holds the
   * two counts printed for each source that could be fetched.
   */
  method FetchAndSave(pages: seq<Option<string>>, decode: string -> JsonLine)
    returns (httpFile: Option<seq<string>>, gitFile: Option<seq<string>>, added: seq<(nat, nat)>)
    requires |pages| == |Sources|
    ensures httpFile.None? <==> Collected(PageLines(pages), Placers(Sources, decode), HttpList) == {}
    ensures httpFile.Some? ==> Increasing(httpFile.value)
    ensures httpFile.Some? ==> forall y :: y in httpFile.value <==> y in Collected(PageLines(pages), Placers(Sources, decode), HttpList)
    ensures gitFile.None? <==> Collected(PageLines(pages), Placers(Sources, decode), Socks5List) == {}
    ensures gitFile.Some? ==> Increasing(gitFile.value)
    ensures gitFile.Some? ==> forall y :: y in gitFile.value <==> y in Collected(PageLines(pages), Placers(Sources, decode), Socks5List)
    ensures added == Added(PageLines(pages), Placers(Sources, decode))
  {
    var http, socks5;
    http, socks5, added := CollectAll(PageLines(pages), Placers(Sources, decode));
    httpFile := SaveProxies(http);
    gitFile := SaveProxies(socks5);
  }
}

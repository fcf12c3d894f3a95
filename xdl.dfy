// The second standalone collector, xdl.py: text sources give "{protocol}://{line}",
// the JSON-lines source gives its own "type" per record; addresses typed http (or
// https) go to http.txt and everything else to git.txt.

module Xdl {
  import opened Wrappers
  import opened Text
  import opened Sorting
  import Hq

  /** How the lines of a source are read. */
  datatype Parser = PlainText | JsonLines

  /** One entry of the source table; `protocol` is the scheme given to text lines. */
  datatype Source = Source(name: string, parser: Parser, protocol: string)

  /** The source table of xdl.py, in its order (the URLs are not modelled). */
  const Sources: seq<Source> := [
    Source("TheSpeedX/PROXY-List", PlainText, "socks5"),
    Source("hookzof/socks5_list", PlainText, "socks5"),
    Source("fate0/proxylist", JsonLines, "dynamic"),
    Source("ProxyScraper/ProxyScraper (SOCKS5)", PlainText, "socks5")
  ]

  /**
   * What json.loads followed by .get("host"), .get("port") and .get("type") gives
   * for one line: Malformed when json.loads raises; host and port as the f-string
   * renders them, or None when missing or falsy; the type string, or None when the
   * key is missing.
   */
  datatype Record = Malformed | Record(host: Option<string>, port: Option<string>, kind: Option<string>)

  /** The two output sets. */
  datatype Bin = HttpBin | OtherBin

  datatype Entry = Entry(bin: Bin, proxy: string)

  /** The record's type, "http" when it has none, in lower case. */
  function KindOf(kind: Option<string>): string {
    Lower(kind.GetOr("http"))
  }

  /** Where one line of the JSON source goes, if anywhere. */
  function JsonEntry(line: string, decode: string -> Record): Option<Entry> {
    if Strip(line) == [] then None
    else
      match decode(line)
      case Malformed => None
      case Record(host, port, kind) =>
        if host.None? || port.None? then None
        else
          var address := host.value + ":" + port.value;
          var k := KindOf(kind);
          if Contains(k, "http") then Some(Entry(HttpBin, "http://" + address))
          else Some(Entry(OtherBin, k + "://" + address))
  }

  /** Where one line of a text source goes, if anywhere. */
  function TextEntry(line: string, protocol: string): Option<Entry> {
    var l := Strip(line);
    if l == [] then None
    else if protocol == "http" then Some(Entry(HttpBin, "http://" + l))
    else Some(Entry(OtherBin, protocol + "://" + l))
  }

  function Place(line: string, src: Source, decode: string -> Record): Option<Entry> {
    match src.parser
    case JsonLines => JsonEntry(line, decode)
    case PlainText => TextEntry(line, src.protocol)
  }

  // ---------------------------------------------------------------- properties of one line

  /** A JSON record is kept exactly when it decodes, has a host and a port, and its line is not blank. */
  lemma JsonKept(line: string, decode: string -> Record)
    ensures JsonEntry(line, decode).Some? <==>
      Strip(line) != [] && decode(line).Record? && decode(line).host.Some? && decode(line).port.Some?
  {
  }

  /** A kept record goes to the HTTP set exactly when its type mentions http, with the type as scheme otherwise. */
  lemma JsonClassified(line: string, decode: string -> Record)
    requires JsonEntry(line, decode).Some?
    ensures var r := decode(line);
      var e := JsonEntry(line, decode).value;
      var address := r.host.value + ":" + r.port.value;
      && (e.bin == HttpBin <==> Contains(KindOf(r.kind), "http"))
      && (e.bin == HttpBin ==> e.proxy == "http://" + address)
      && (e.bin == OtherBin ==> e.proxy == KindOf(r.kind) + "://" + address)
  {
  }

  /** A record without a type is an HTTP proxy. */
  lemma MissingTypeIsHttp(line: string, decode: string -> Record)
    requires Strip(line) != [] && decode(line).Record? && decode(line).host.Some? && decode(line).port.Some?
    requires decode(line).kind.None?
    ensures JsonEntry(line, decode) == Some(Entry(HttpBin, "http://" + (decode(line).host.value + ":" + decode(line).port.value)))
  {
    var low := Lower("http");
    assert |low| == 4 && low[0] == 'h' && low[1] == 't' && low[2] == 't' && low[3] == 'p';
    assert low == "http";
    ContainsAt(low, "http", 0);
    HttpKindIsHttp(line, decode);
  }

  lemma HttpKindIsHttp(line: string, decode: string -> Record)
    requires Strip(line) != [] && decode(line).Record? && decode(line).host.Some? && decode(line).port.Some?
    requires Contains(KindOf(decode(line).kind), "http")
    ensures JsonEntry(line, decode) == Some(Entry(HttpBin, "http://" + (decode(line).host.value + ":" + decode(line).port.value)))
  {
  }

  /** A record typed "https", in any case, is filed as an HTTP proxy. */
  lemma HttpsIsHttp(line: string, decode: string -> Record)
    requires Strip(line) != [] && decode(line).Record? && decode(line).host.Some? && decode(line).port.Some?
    requires decode(line).kind.Some? && Contains(KindOf(decode(line).kind), "https")
    ensures JsonEntry(line, decode) == Some(Entry(HttpBin, "http://" + (decode(line).host.value + ":" + decode(line).port.value)))
  {
    assert "https"[..4] == "http";
    ContainsPrefix(KindOf(decode(line).kind), "https", 4);
    HttpKindIsHttp(line, decode);
  }

  /** A text line keeps its stripped text behind the source's scheme. */
  lemma TextFiled(line: string, protocol: string)
    ensures TextEntry(line, protocol).Some? <==> Strip(line) != []
    ensures TextEntry(line, protocol).Some? ==>
      && (TextEntry(line, protocol).value.bin == HttpBin <==> protocol == "http")
      && TextEntry(line, protocol).value.proxy == protocol + "://" + Strip(line)
  {
  }

  // ---------------------------------------------------------------- one source

  /** How the lines of one source are placed. */
  function Placer(src: Source, decode: string -> Record): string -> Option<Entry> {
    line => Place(line, src, decode)
  }

  /** What the lines put into one set. */
  function Filed(lines: seq<string>, place: string -> Option<Entry>, bin: Bin): set<string>
    decreases |lines|
  {
    if lines == [] then {}
    else
      var last := lines[|lines| - 1];
      Filed(lines[..|lines| - 1], place, bin)
        + match place(last)
          case Some(e) => if e.bin == bin then {e.proxy} else {}
          case None => {}
  }

  /** A proxy is filed exactly when some line places it there. */
  lemma {:induction false} FiledMembers(lines: seq<string>, place: string -> Option<Entry>, bin: Bin, x: string)
    ensures x in Filed(lines, place, bin) <==> exists l :: l in lines && place(l) == Some(Entry(bin, x))
    decreases |lines|
  {
    if lines != [] {
      var init := lines[..|lines| - 1];
      var last := lines[|lines| - 1];
      FiledMembers(init, place, bin, x);
      assert lines == init + [last];
      if x in Filed(lines, place, bin) && x !in Filed(init, place, bin) {
        assert place(last) == Some(Entry(bin, x));
      }
      if exists l :: l in lines && place(l) == Some(Entry(bin, x)) {
        var l :| l in lines && place(l) == Some(Entry(bin, x));
        if l != last {
          assert l in init;
        }
      }
    }
  }

  /**
   * One fetched source: each line is placed into one of the two sets, and the count
   * printed afterwards is how much the two sets grew together.
   */
  method ReadSource(lines: seq<string>, place: string -> Option<Entry>, http: set<string>, other: set<string>)
    returns (http': set<string>, other': set<string>, added: nat)
    ensures http' == http + Filed(lines, place, HttpBin)
    ensures other' == other + Filed(lines, place, OtherBin)
    ensures added == |http' - http| + |other' - other|
  {
    http', other' := http, other;
    var i := 0;
    while i < |lines|
      invariant 0 <= i <= |lines|
      invariant http' == http + Filed(lines[..i], place, HttpBin)
      invariant other' == other + Filed(lines[..i], place, OtherBin)
    {
      assert lines[..i + 1][..i] == lines[..i];
      match place(lines[i]) {
        case Some(e) =>
          if e.bin == HttpBin {
            http' := http' + {e.proxy};
          } else {
            other' := other' + {e.proxy};
          }
        case None =>
      }
      i := i + 1;
    }
    assert lines[..i] == lines;
    Hq.GrowthCount(http, http');
    Hq.GrowthCount(other, other');
    added := (|http'| + |other'|) - (|http| + |other|);
  }

  /** Reading a source whose proxies are all known already reports nothing new. */
  lemma ReplayAddsNothing(lines: seq<string>, place: string -> Option<Entry>, http: set<string>, other: set<string>)
    requires Filed(lines, place, HttpBin) <= http && Filed(lines, place, OtherBin) <= other
    ensures http + Filed(lines, place, HttpBin) == http && other + Filed(lines, place, OtherBin) == other
    ensures |(http + Filed(lines, place, HttpBin)) - http| + |(other + Filed(lines, place, OtherBin)) - other| == 0
  {
    assert (http + Filed(lines, place, HttpBin)) - http == {};
    assert (other + Filed(lines, place, OtherBin)) - other == {};
  }

  // ---------------------------------------------------------------- all sources and the files

  /** The placement of each source in the table. */
  function Placers(sources: seq<Source>, decode: string -> Record): (ps: seq<string -> Option<Entry>>)
    ensures |ps| == |sources| && forall i :: 0 <= i < |sources| ==> ps[i] == Placer(sources[i], decode)
  {
    seq(|sources|, i requires 0 <= i < |sources| => Placer(sources[i], decode))
  }

  /** What every fetched batch of lines puts into one set; None stands for a failed request. */
  function Gathered(batches: seq<Option<seq<string>>>, places: seq<string -> Option<Entry>>, bin: Bin): set<string>
    requires |batches| == |places|
    decreases |batches|
  {
    if batches == [] then {}
    else
      var n := |batches| - 1;
      Gathered(batches[..n], places[..n], bin)
        + match batches[n]
          case Some(lines) => Filed(lines, places[n], bin)
          case None => {}
  }

  lemma GatheredStep(batches: seq<Option<seq<string>>>, places: seq<string -> Option<Entry>>, i: nat, bin: Bin)
    requires |batches| == |places| && i < |batches|
    ensures Gathered(batches[..i + 1], places[..i + 1], bin) ==
      Gathered(batches[..i], places[..i], bin) + (if batches[i].Some? then Filed(batches[i].value, places[i], bin) else {})
  {
    assert batches[..i + 1][..i] == batches[..i] && places[..i + 1][..i] == places[..i];
  }

  /** A proxy is gathered exactly when some fetched source files it. */
  lemma {:induction false} GatheredMembers(batches: seq<Option<seq<string>>>, places: seq<string -> Option<Entry>>, bin: Bin, x: string)
    requires |batches| == |places|
    ensures x in Gathered(batches, places, bin) <==>
      exists i :: 0 <= i < |batches| && batches[i].Some? && x in Filed(batches[i].value, places[i], bin)
    decreases |batches|
  {
    if batches != [] {
      var n := |batches| - 1;
      GatheredMembers(batches[..n], places[..n], bin, x);
      if exists i :: 0 <= i < |batches| && batches[i].Some? && x in Filed(batches[i].value, places[i], bin) {
        var i :| 0 <= i < |batches| && batches[i].Some? && x in Filed(batches[i].value, places[i], bin);
        if i < n {
          assert batches[..n][i] == batches[i] && places[..n][i] == places[i];
        }
      }
      if x in Gathered(batches[..n], places[..n], bin) {
        var i :| 0 <= i < n && batches[..n][i].Some? && x in Filed(batches[..n][i].value, places[..n][i], bin);
        assert batches[i] == batches[..n][i] && places[i] == places[..n][i];
      }
    }
  }

  /** The source loop over any table of placements. */
  method GatherAll(batches: seq<Option<seq<string>>>, places: seq<string -> Option<Entry>>)
    returns (http: set<string>, other: set<string>, added: seq<nat>)
    requires |batches| == |places|
    ensures http == Gathered(batches, places, HttpBin)
    ensures other == Gathered(batches, places, OtherBin)
    ensures |added| <= |batches|
  {
    http, other := {}, {};
    added := [];
    var i := 0;
    while i < |batches|
      invariant 0 <= i <= |batches| && |added| <= i
      invariant http == Gathered(batches[..i], places[..i], HttpBin)
      invariant other == Gathered(batches[..i], places[..i], OtherBin)
    {
      GatheredStep(batches, places, i, HttpBin);
      GatheredStep(batches, places, i, OtherBin);
      match batches[i] {
        case Some(lines) =>
          var h, o, n := ReadSource(lines, places[i], http, other);
          added := added + [n];
          http, other := h, o;
        case None =>
      }
      i := i + 1;
    }
    assert batches[..i] == batches && places[..i] == places;
  }

  /**
   * fetch_and_save_proxies: run every source of the table in order; when both sets
   * are empty nothing is saved, otherwise http.txt and git.txt are each written,
   * sorted, unless their own set is empty.
   */
  method FetchAndSave(pages: seq<Option<string>>, decode: string -> Record)
    returns (httpFile: Option<seq<string>>, gitFile: Option<seq<string>>, added: seq<nat>)
    requires |pages| == |Sources|
    ensures httpFile.None? <==> Gathered(Hq.PageLines(pages), Placers(Sources, decode), HttpBin) == {}
    ensures httpFile.Some? ==> Increasing(httpFile.value)
    ensures httpFile.Some? ==> forall y :: y in httpFile.value <==> y in Gathered(Hq.PageLines(pages), Placers(Sources, decode), HttpBin)
    ensures gitFile.None? <==> Gathered(Hq.PageLines(pages), Placers(Sources, decode), OtherBin) == {}
    ensures gitFile.Some? ==> Increasing(gitFile.value)
    ensures gitFile.Some? ==> forall y :: y in gitFile.value <==> y in Gathered(Hq.PageLines(pages), Placers(Sources, decode), OtherBin)
  {
    var http, other;
    http, other, added := GatherAll(Hq.PageLines(pages), Placers(Sources, decode));
    if http == {} && other == {} {
      return None, None, added;
    }
    httpFile := Hq.SaveProxies(http);
    gitFile := Hq.SaveProxies(other);
  }
}

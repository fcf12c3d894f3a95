/**
 * The window's proxy-file import and its plain-text export (main.py): which line of a
 * text file becomes which (protocol, address) entry, what a JSON item becomes, and the
 * `protocol://address` line the text export writes for each pooled proxy.
 */
module Imports {
  import opened Wrappers
  import opened Text
  import opened Patterns

  /** valid_parse_protocols: the schemes and comma prefixes the text import understands. */
  predicate Recognised(p: string) {
    p == "http" || p == "https" || p == "socks4" || p == "socks5"
  }

  /** The keys of proxies_by_protocol: the only protocols an import can deliver. */
  predicate Bucketed(p: string) {
    p == "http" || p == "socks4" || p == "socks5"
  }

  /** An https proxy is validated as an http one. */
  function Canonical(p: string): (q: string)
    ensures Recognised(p) ==> Bucketed(q)
  {
    if p == "https" then "http" else p
  }

  // ---------------------------------------------------------------- re.match(r'(\w+)://(.+)', s)

  /** Length of the leading run of \w characters. */
  function WordRun(s: string): (n: nat)
    ensures n <= |s| && (forall i :: 0 <= i < n ==> IsWordChar(s[i])) && (n < |s| ==> !IsWordChar(s[n]))
  {
    if s == [] || !IsWordChar(s[0]) then 0 else 1 + WordRun(s[1..])
  }

  /** Length of the leading run that `.` can match: everything up to the first newline. */
  function LineRun(s: string): (n: nat)
    ensures n <= |s| && (forall i :: 0 <= i < n ==> s[i] != '\n') && (n < |s| ==> s[n] == '\n')
  {
    if s == [] || s[0] == '\n' then 0 else 1 + LineRun(s[1..])
  }

  /**
   * re.match(r'(\w+)://(.+)', s) and its two groups. `\w+` is tried longest first and a
   * shorter run cannot help, since it would leave a word character where ':' is needed;
   * `.+` takes the rest up to a newline and needs at least one character.
   */
  function SchemeMatch(s: string): (r: Option<(string, string)>)
    ensures r.Some? ==> |r.value.0| >= 1 && |r.value.1| >= 1
    ensures r.Some? ==> |r.value.0| <= |s| && s[..|r.value.0|] == r.value.0 && StartsWith(s[|r.value.0|..], "://")
    ensures r.Some? ==> '\n' !in r.value.1
  {
    var n := WordRun(s);
    if n >= 1 && StartsWith(s[n..], "://") then
      var rest := s[n + 3..];
      var m := LineRun(rest);
      if m >= 1 then Some((s[..n], rest[..m])) else None
    else None
  }

  // ---------------------------------------------------------------- one line of a text file

  /** What the import loop does with one line: pass over it silently, log it as invalid, or keep it. */
  datatype ImportLine = Blank | Invalid | Entry(protocol: string, address: string)

  /**
   * The protocol and address a non-blank stripped line stands for: the scheme form first,
   * then the "proto,address" form, otherwise the whole line as an http address.
   */
  function Candidate(line: string): (string, string) {
    match SchemeMatch(line)
    case Some((scheme, rest)) => Pick(line, Lower(scheme), rest)
    case None => CommaCandidate(line)
  }

  /** The "proto,address" form: both halves stripped and lowered. */
  function CommaCandidate(line: string): (string, string) {
    if ',' in line then
      var parts := SplitOnce(line, ',');
      if |parts| == 2 then Pick(line, Lower(Strip(parts[0])), Lower(Strip(parts[1]))) else ("http", line)
    else ("http", line)
  }

  /** A recognised prefix selects its protocol and the rest as the address; otherwise the whole line is an http address. */
  function Pick(line: string, prefix: string, rest: string): (r: (string, string))
    ensures r.1 == rest || r == ("http", line)
  {
    if Recognised(prefix) then (Canonical(prefix), rest) else ("http", line)
  }

  /** The final test: a bucket protocol and an address matching the whole-string pattern. */
  function Decide(c: (string, string)): (r: ImportLine)
    ensures r.Entry? ==> Bucketed(r.protocol) && IpPortFull(r.address)
  {
    if Bucketed(c.0) && IpPortFull(c.1) then Entry(c.0, c.1) else Invalid
  }

  /** One line of a text file: blank and '#' lines are passed over, the rest kept or logged. */
  function ParseImportLine(raw: string): (r: ImportLine)
    ensures r.Entry? ==> Bucketed(r.protocol) && IpPortFull(r.address)
  {
    var line := Strip(raw);
    if line == [] || StartsWith(line, "#") then Blank else Decide(Candidate(line))
  }

  /** The `.txt` export line of a pooled proxy. */
  function ExportLine(protocol: string, address: string): string {
    Lower(protocol) + "://" + address
  }

  /** A line is passed over exactly when it strips to nothing or to a comment. */
  lemma ParseBlank(raw: string)
    ensures ParseImportLine(raw) == Blank <==> Strip(raw) == [] || Strip(raw)[0] == '#'
  {
    var line := Strip(raw);
    if line != [] {
      assert StartsWith(line, "#") <==> line[0] == '#';
      var d := Decide(Candidate(line));
      assert d.Entry? || d == Invalid;
    }
  }

  lemma ParseOf(raw: string)
    requires Strip(raw) != [] && Strip(raw)[0] != '#'
    ensures ParseImportLine(raw) == Decide(Candidate(Strip(raw)))
  {
    var line := Strip(raw);
    assert line[..1][0] == line[0];
  }

  // ---------------------------------------------------------------- the characters of an address

  /** Every character of a written-out address is a digit, '.' or ':'. */
  predicate AddressChar(c: char) { IsDigit(c) || c == '.' || c == ':' }

  lemma {:induction false} JoinedChars(qs: seq<string>, seps: seq<char>)
    requires |qs| == |seps| && AllOctets(qs) && forall i :: 0 <= i < |seps| ==> AddressChar(seps[i])
    ensures forall i :: 0 <= i < |Joined(qs, seps)| ==> AddressChar(Joined(qs, seps)[i])
    decreases seps
  {
    if seps != [] {
      AllOctetsTail(qs);
      JoinedChars(qs[1..], seps[1..]);
      JoinedStep(qs, seps, []);
      var tail := Joined(qs[1..], seps[1..]);
      assert Joined(qs, seps) == qs[0] + [seps[0]] + tail;
      forall i | 0 <= i < |Joined(qs, seps)|
        ensures AddressChar(Joined(qs, seps)[i])
      {
        if i > |qs[0]| {
          assert Joined(qs, seps)[i] == tail[i - |qs[0]| - 1];
        }
      }
    }
  }

  /** An address is made of digits, dots and colons and ends with a digit of its port. */
  lemma AddressChars(s: string)
    requires IsAddress(s)
    ensures s != [] && IsDigit(s[|s| - 1])
    ensures forall i :: 0 <= i < |s| ==> AddressChar(s[i])
  {
    var qs: seq<string>, port: string :|
      |qs| == |HostSeps| && AllOctets(qs) && |port| >= 1 && AllDigits(port) && s == Joined(qs, HostSeps) + port;
    JoinedChars(qs, HostSeps);
    var host := Joined(qs, HostSeps);
    forall i | 0 <= i < |s|
      ensures AddressChar(s[i])
    {
      if i >= |host| {
        assert s[i] == port[i - |host|];
      }
    }
    assert s[|s| - 1] == port[|port| - 1];
  }

  /** What the whole-string pattern accepts is made of address characters, but for a final newline. */
  lemma FullChars(s: string)
    ensures IpPortFull(s) ==> forall i :: 0 <= i < |s| - 1 ==> AddressChar(s[i])
  {
    IpPortFullIff(s);
    if IsAddress(s) {
      AddressChars(s);
    } else if |s| >= 1 && s[|s| - 1] == '\n' && IsAddress(s[..|s| - 1]) {
      AddressChars(s[..|s| - 1]);
      assert forall i :: 0 <= i < |s| - 1 ==> s[i] == s[..|s| - 1][i];
    }
  }

  /** A written-out address also passes the import's whole-string pattern, and the reverse when it does not end in a newline. */
  lemma AddressFull(s: string)
    ensures IsAddress(s) ==> IpPortFull(s)
    ensures IpPortFull(s) && (s == [] || s[|s| - 1] != '\n') ==> IsAddress(s)
  {
    IpPortFullIff(s);
  }

  /** Lowering leaves a string without upper-case letters as it is. */
  lemma LowerFixed(s: string)
    requires forall i :: 0 <= i < |s| ==> !('A' <= s[i] <= 'Z')
    ensures Lower(s) == s
  {
  }

  lemma LowerTwice(s: string)
    ensures Lower(Lower(s)) == Lower(s)
  {
  }

  /** The recognised protocols are lower-case words without a comma. */
  lemma RecognisedShape(p: string)
    requires Recognised(p)
    ensures p != [] && ',' !in p && forall i :: 0 <= i < |p| ==> IsWordChar(p[i]) && !('A' <= p[i] <= 'Z')
  {
  }

  lemma RecognisedIsLower(p: string)
    ensures Recognised(p) ==> Lower(p) == p
  {
    if Recognised(p) {
      RecognisedShape(p);
      LowerFixed(p);
    }
  }

  lemma {:induction false} WordRunOf(w: string, tail: string)
    requires (forall i :: 0 <= i < |w| ==> IsWordChar(w[i])) && (tail == [] || !IsWordChar(tail[0]))
    ensures WordRun(w + tail) == |w|
  {
    if w != [] {
      assert (w + tail)[1..] == w[1..] + tail;
      WordRunOf(w[1..], tail);
    }
  }

  lemma {:induction false} LineRunOf(s: string)
    requires '\n' !in s
    ensures LineRun(s) == |s|
  {
    if s != [] {
      LineRunOf(s[1..]);
    }
  }

  /** A string whose lower case is made of word characters is made of word characters. */
  lemma LowerWordChars(s: string)
    requires forall i :: 0 <= i < |Lower(s)| ==> IsWordChar(Lower(s)[i])
    ensures forall i :: 0 <= i < |s| ==> IsWordChar(s[i])
  {
    forall i | 0 <= i < |s|
      ensures IsWordChar(s[i])
    {
      assert IsWordChar(Lower(s)[i]);
    }
  }

  lemma BucketWord(p: string)
    requires Bucketed(p)
    ensures p != [] && forall i :: 0 <= i < |p| ==> IsWordChar(p[i])
  {
  }

  /** A scheme whose lower case is a bucket is made of letters and digits. */
  lemma BucketSchemeChars(scheme: string)
    requires Bucketed(Lower(scheme))
    ensures scheme != [] && forall i :: 0 <= i < |scheme| ==> IsWordChar(scheme[i])
  {
    var l := Lower(scheme);
    assert forall i :: 0 <= i < |l| ==> IsWordChar(l[i]) by {
      BucketWord(l);
    }
    LowerWordChars(scheme);
  }

  /** The scheme pattern splits `scheme://address` at the first "://". */
  lemma SchemeMatchOf(scheme: string, address: string)
    requires scheme != [] && forall i :: 0 <= i < |scheme| ==> IsWordChar(scheme[i])
    requires address != [] && '\n' !in address
    ensures SchemeMatch(scheme + "://" + address) == Some((scheme, address))
  {
    var line := scheme + "://" + address;
    assert line == scheme + ("://" + address);
    WordRunOf(scheme, "://" + address);
    assert line[|scheme|..] == "://" + address;
    assert line[|scheme| + 3..] == address;
    LineRunOf(address);
    assert address[..|address|] == address;
  }

  /** An address contains no newline. */
  lemma AddressNoNewline(address: string)
    requires IsAddress(address)
    ensures address != [] && '\n' !in address && IsDigit(address[|address| - 1]) && Printable(address[0])
  {
    AddressChars(address);
    assert AddressChar(address[0]);
  }

  /** A bucket prefix selects itself and the rest. */
  lemma PickBucket(line: string, prefix: string, rest: string)
    requires Bucketed(prefix)
    ensures Pick(line, prefix, rest) == (prefix, rest)
  {
  }

  lemma SchemeCandidate(scheme: string, address: string)
    requires Bucketed(Lower(scheme))
    requires SchemeMatch(scheme + "://" + address) == Some((scheme, address))
    ensures Candidate(scheme + "://" + address) == (Lower(scheme), address)
  {
    PickBucket(scheme + "://" + address, Lower(scheme), address);
  }

  /** The scheme form read back: any spelling of a bucket scheme followed by an address. */
  lemma SchemeLineImports(scheme: string, address: string)
    requires Bucketed(Lower(scheme)) && IsAddress(address)
    ensures ParseImportLine(scheme + "://" + address) == Entry(Lower(scheme), address)
  {
    var line := scheme + "://" + address;
    BucketSchemeChars(scheme);
    AddressNoNewline(address);
    assert line[0] == scheme[0] && line[|line| - 1] == address[|address| - 1];
    StripPrintable(line);
    SchemeMatchOf(scheme, address);
    SchemeCandidate(scheme, address);
    AddressFull(address);
    ParseOf(line);
  }

  /** Round trip: the `.txt` export line of an IPv4:port proxy of a bucket protocol imports back as it. */
  lemma ExportRoundTrip(protocol: string, address: string)
    requires Bucketed(Lower(protocol)) && IsAddress(address)
    ensures ParseImportLine(ExportLine(protocol, address)) == Entry(Lower(protocol), address)
  {
    LowerTwice(protocol);
    SchemeLineImports(Lower(protocol), address);
  }

  lemma {:induction false} SplitOnceAt(a: string, b: string, s: string)
    requires ',' !in a && s == a + [','] + b
    ensures SplitOnce(s, ',') == [a, b]
  {
    if a == [] {
      assert s[1..] == b;
    } else {
      assert s[1..] == a[1..] + [','] + b;
      SplitOnceAt(a[1..], b, s[1..]);
      assert a == [a[0]] + a[1..];
    }
  }

  /** A recognised word followed by a comma is not the scheme form. */
  lemma CommaNotScheme(protocol: string, address: string)
    requires Recognised(protocol)
    ensures SchemeMatch(protocol + "," + address).None?
  {
    var line := protocol + "," + address;
    RecognisedShape(protocol);
    assert line == protocol + ("," + address);
    WordRunOf(protocol, "," + address);
    assert line[|protocol|] == ',';
  }

  /** The comma form splits at the first comma and keeps both halves, already stripped and lower-case. */
  lemma CommaParts(protocol: string, address: string)
    requires Recognised(protocol)
    ensures var line := protocol + "," + address; ',' in line && SplitOnce(line, ',') == [protocol, address]
  {
    var line := protocol + "," + address;
    RecognisedShape(protocol);
    assert line == protocol + [','] + address;
    assert line[|protocol|] == ',';
    SplitOnceAt(protocol, address, line);
  }

  /** Stripping and lowering leave a protocol name as it is. */
  lemma ProtocolKept(protocol: string)
    requires Recognised(protocol)
    ensures Lower(Strip(protocol)) == protocol
  {
    RecognisedShape(protocol);
    StripPrintable(protocol);
    RecognisedIsLower(protocol);
  }

  /** Stripping and lowering leave an address as it is. */
  lemma AddressKept(address: string)
    requires IsAddress(address)
    ensures Lower(Strip(address)) == address
  {
    AddressNoNewline(address);
    StripPrintable(address);
    AddressChars(address);
    LowerFixed(address);
  }

  lemma CommaSplit(protocol: string, address: string)
    requires Recognised(protocol) && IsAddress(address)
    ensures CommaCandidate(protocol + "," + address) == (Canonical(protocol), address)
  {
    CommaParts(protocol, address);
    ProtocolKept(protocol);
    AddressKept(address);
  }

  /** The comma form read back: a lower-case recognised prefix, a comma and an address. */
  lemma CommaLineImports(protocol: string, address: string)
    requires Recognised(protocol) && IsAddress(address)
    ensures ParseImportLine(protocol + "," + address) == Entry(Canonical(protocol), address)
  {
    var line := protocol + "," + address;
    RecognisedShape(protocol);
    AddressNoNewline(address);
    assert line[0] == protocol[0] && line[|line| - 1] == address[|address| - 1];
    StripPrintable(line);
    CommaNotScheme(protocol, address);
    CommaSplit(protocol, address);
    AddressFull(address);
    ParseOf(line);
  }

  /** A line with an unrecognised scheme is kept whole as the address, so it is never imported. */
  lemma UnknownSchemeSkipped(raw: string)
    requires var line := Strip(raw);
      line != [] && line[0] != '#' && SchemeMatch(line).Some? && !Recognised(Lower(SchemeMatch(line).value.0))
    ensures ParseImportLine(raw) == Invalid
  {
    UnknownSchemeWhole(Strip(raw));
    ParseOf(raw);
  }

  /** An unrecognised scheme leaves the whole line as the address, which the address pattern refuses. */
  lemma UnknownSchemeWhole(line: string)
    requires SchemeMatch(line).Some? && !Recognised(Lower(SchemeMatch(line).value.0))
    ensures Candidate(line) == ("http", line) && !IpPortFull(line)
  {
    var n := |SchemeMatch(line).value.0|;
    assert line[n + 1] == '/';
    assert n + 2 < |line| - 1 by {
      assert |SchemeMatch(line).value.1| >= 1;
    }
    FullChars(line);
    assert !AddressChar(line[n + 1]);
  }

  /** Text that does not end in a newline. */
  predicate NoNewlineEnd(s: string) { s == [] || s[|s| - 1] != '\n' }

  /** The address the comma form offers never ends in a newline. */
  lemma CommaEnd(line: string)
    requires NoNewlineEnd(line)
    ensures NoNewlineEnd(CommaCandidate(line).1)
  {
    if ',' in line {
      var parts := SplitOnce(line, ',');
      var rest := Strip(parts[1]);
      LowerEnd(rest);
      var r := Pick(line, Lower(Strip(parts[0])), Lower(rest));
      assert CommaCandidate(line) == r;
    }
  }

  /** The address a line offers never ends in a newline. */
  lemma CandidateEnd(line: string)
    requires NoNewlineEnd(line)
    ensures NoNewlineEnd(Candidate(line).1)
  {
    CommaEnd(line);
    var m := SchemeMatch(line);
    assert Candidate(line).1 == line || Candidate(line).1 == CommaCandidate(line).1 ||
      (m.Some? && Candidate(line).1 == m.value.1);
    assert m.Some? ==> m.value.1 == [] || m.value.1[|m.value.1| - 1] in m.value.1;
  }

  /** Whatever a line imports as, its re-export imports as the same entry. */
  lemma ImportedReExports(raw: string)
    requires ParseImportLine(raw).Entry?
    ensures var e := ParseImportLine(raw);
      ParseImportLine(ExportLine(e.protocol, e.address)) == e
  {
    var e := ParseImportLine(raw);
    ParseBlank(raw);
    ParseOf(raw);
    assert NoNewlineEnd(Strip(raw));
    CandidateEnd(Strip(raw));
    AddressFull(e.address);
    RecognisedIsLower(e.protocol);
    ExportRoundTrip(e.protocol, e.address);
  }

  // ---------------------------------------------------------------- a whole text file

  /** proxies_by_protocol after a text file: the addresses of each bucket, in file order. */
  datatype Batch = Batch(http: seq<string>, socks4: seq<string>, socks5: seq<string>)

  function Total(b: Batch): nat { |b.http| + |b.socks4| + |b.socks5| }

  /** proxies_by_protocol[protocol].append(address), for a protocol that has a list. */
  function Append(b: Batch, protocol: string, address: string): (r: Batch)
    ensures Total(r) == Total(b) + (if Bucketed(protocol) then 1 else 0)
  {
    if protocol == "http" then b.(http := b.http + [address])
    else if protocol == "socks4" then b.(socks4 := b.socks4 + [address])
    else if protocol == "socks5" then b.(socks5 := b.socks5 + [address])
    else b
  }

  /** proxies_by_protocol[protocol], empty for a protocol without a list. */
  function BucketOf(b: Batch, protocol: string): seq<string> {
    if protocol == "http" then b.http
    else if protocol == "socks4" then b.socks4
    else if protocol == "socks5" then b.socks5
    else []
  }

  /** Appending grows exactly the bucket appended to, at its end. */
  lemma AppendBucket(b: Batch, protocol: string, address: string, q: string)
    ensures BucketOf(Append(b, protocol, address), q) ==
      BucketOf(b, q) + (if q == protocol && Bucketed(q) then [address] else [])
  {
  }

  /** What one parsed line does to the buckets. */
  function Step(b: Batch, e: ImportLine): Batch {
    if e.Entry? then Append(b, e.protocol, e.address) else b
  }

  /** The buckets the parsed lines fill, in order. */
  function Gather(es: seq<ImportLine>): Batch {
    if es == [] then Batch([], [], [])
    else Step(Gather(es[..|es| - 1]), es[|es| - 1])
  }

  /** Each line of the file, parsed. */
  function Parsed(lines: seq<string>): seq<ImportLine> {
    seq(|lines|, i requires 0 <= i < |lines| => ParseImportLine(lines[i]))
  }

  /** proxies_by_protocol after the lines, in file order. */
  function Collect(lines: seq<string>): Batch {
    Gather(Parsed(lines))
  }

  /** What one line adds to the log of invalid lines. */
  function SkippedOf(raw: string): seq<string> {
    if ParseImportLine(raw) == Invalid then [Strip(raw)] else []
  }

  /** The stripped lines the import logs as invalid, in order. */
  function Skipped(lines: seq<string>): seq<string> {
    if lines == [] then [] else Skipped(lines[..|lines| - 1]) + SkippedOf(lines[|lines| - 1])
  }

  /** The number of lines passed over silently. */
  function BlankCount(lines: seq<string>): nat {
    CountOf(Parsed(lines), Blank)
  }

  /** How many of the parsed lines are `k`. */
  function CountOf(es: seq<ImportLine>, k: ImportLine): nat {
    if es == [] then 0 else CountOf(es[..|es| - 1], k) + (if es[|es| - 1] == k then 1 else 0)
  }

  lemma CollectStep(lines: seq<string>, i: nat)
    requires i < |lines|
    ensures Collect(lines[..i + 1]) == Step(Collect(lines[..i]), ParseImportLine(lines[i]))
    ensures Skipped(lines[..i + 1]) == Skipped(lines[..i]) + SkippedOf(lines[i])
  {
    assert lines[..i + 1][..i] == lines[..i] && lines[..i + 1][i] == lines[i];
    assert Parsed(lines[..i + 1])[..i] == Parsed(lines[..i]);
  }

  /** The text branch of import_and_validate_proxies: each line is kept, logged or passed over. */
  method ImportText(lines: seq<string>) returns (b: Batch, skipped: seq<string>)
    ensures b == Collect(lines) && skipped == Skipped(lines)
  {
    b, skipped := Batch([], [], []), [];
    var i := 0;
    while i < |lines|
      invariant 0 <= i <= |lines|
      invariant b == Collect(lines[..i]) && skipped == Skipped(lines[..i])
    {
      CollectStep(lines, i);
      match ParseImportLine(lines[i]) {
        case Blank =>
        case Invalid =>
          skipped := skipped + [Strip(lines[i])];
        case Entry(p, a) =>
          b := Append(b, p, a);
      }
      i := i + 1;
    }
    assert lines[..i] == lines;
  }

  /** One more parsed line grows at most the bucket of its own protocol, at its end. */
  lemma GatherStep(es: seq<ImportLine>, q: string)
    requires es != []
    ensures var e := es[|es| - 1];
      BucketOf(Gather(es), q) == BucketOf(Gather(es[..|es| - 1]), q) +
        (if e.Entry? && e.protocol == q && Bucketed(q) then [e.address] else [])
  {
    var e := es[|es| - 1];
    if e.Entry? {
      AppendBucket(Gather(es[..|es| - 1]), e.protocol, e.address, q);
    }
  }

  /** An address is in a bucket exactly when some parsed line is an entry of that bucket. */
  lemma {:induction false} GatherMembers(es: seq<ImportLine>, protocol: string, a: string)
    ensures a in BucketOf(Gather(es), protocol) <==>
      Bucketed(protocol) && exists i :: 0 <= i < |es| && es[i] == Entry(protocol, a)
  {
    if es != [] {
      var init := es[..|es| - 1];
      GatherMembers(init, protocol, a);
      GatherStep(es, protocol);
      assert forall i :: 0 <= i < |init| ==> init[i] == es[i];
      if exists i :: 0 <= i < |es| && es[i] == Entry(protocol, a) {
        var i :| 0 <= i < |es| && es[i] == Entry(protocol, a);
        if i < |init| {
          assert init[i] == Entry(protocol, a);
        }
      }
    }
  }

  /** An address is in a bucket exactly when some line imports as it with that protocol. */
  lemma KeptMembers(lines: seq<string>, protocol: string, a: string)
    ensures a in BucketOf(Collect(lines), protocol) <==>
      exists i :: 0 <= i < |lines| && ParseImportLine(lines[i]) == Entry(protocol, a)
  {
    var es := Parsed(lines);
    GatherMembers(es, protocol, a);
    if exists i :: 0 <= i < |lines| && ParseImportLine(lines[i]) == Entry(protocol, a) {
      var i :| 0 <= i < |lines| && ParseImportLine(lines[i]) == Entry(protocol, a);
      assert es[i] == Entry(protocol, a);
    }
  }

  lemma {:induction false} GatherAccounted(es: seq<ImportLine>)
    requires forall i :: 0 <= i < |es| ==> es[i].Entry? ==> Bucketed(es[i].protocol)
    ensures Total(Gather(es)) + CountOf(es, Invalid) + CountOf(es, Blank) == |es|
  {
    if es != [] {
      var init := es[..|es| - 1];
      assert forall i :: 0 <= i < |init| ==> init[i] == es[i];
      GatherAccounted(init);
    }
  }

  lemma {:induction false} SkippedCount(lines: seq<string>)
    ensures |Skipped(lines)| == CountOf(Parsed(lines), Invalid)
  {
    if lines != [] {
      var n := |lines| - 1;
      SkippedCount(lines[..n]);
      assert Parsed(lines)[..n] == Parsed(lines[..n]);
    }
  }

  /** Every line is accounted for exactly once: kept in one bucket, logged, or passed over. */
  lemma LinesAccounted(lines: seq<string>)
    ensures Total(Collect(lines)) + |Skipped(lines)| + BlankCount(lines) == |lines|
  {
    GatherAccounted(Parsed(lines));
    SkippedCount(lines);
  }

  /**
   * The whole import: a file that yields no entry raises the "nothing found" warning and
   * starts no validation; otherwise the buckets go to the validator.
   */
  function ImportOutcome(b: Batch): (r: Option<Batch>)
    ensures r.Some? <==> Total(b) > 0
    ensures r.Some? ==> r.value == b
  {
    if Total(b) == 0 then None else Some(b)
  }

  // ---------------------------------------------------------------- a JSON file

  /**
   * One element of a JSON list, as the import reads it: the `url` and `protocol` strings when
   * present, and the texts that `ip` and `port` are written as.
   */
  datatype JsonItem = JsonItem(url: Option<string>, protocol: Option<string>, ip: string, port: string)

  /**
   * The JSON branch: a non-empty url is split by the scheme pattern, whose scheme is taken as
   * written (an upper-case scheme is not lowered here); otherwise ip:port. Nothing checks the
   * address.
   */
  function JsonEntry(item: JsonItem): (r: Option<(string, string)>)
    ensures r.Some? ==> Bucketed(r.value.0)
  {
    var declared := Lower(item.protocol.GetOr("http"));
    var (protocol, proxy) :=
      if item.url.Some? && item.url.value != "" then
        match SchemeMatch(item.url.value)
        case Some((scheme, rest)) => (scheme, rest)
        case None => (declared, item.url.value)
      else (declared, item.ip + ":" + item.port);
    var p := Canonical(protocol);
    if Bucketed(p) then Some((p, proxy)) else None
  }

  /** The addresses of the entries filed under `protocol`, in order. */
  function Filed(es: seq<Option<(string, string)>>, protocol: string): (r: seq<string>)
    ensures |r| <= |es|
  {
    if es == [] then []
    else
      var e := es[|es| - 1];
      Filed(es[..|es| - 1], protocol) + if e.Some? && e.value.0 == protocol then [e.value.1] else []
  }

  lemma {:induction false} FiledMembers(es: seq<Option<(string, string)>>, protocol: string, a: string)
    ensures a in Filed(es, protocol) <==> exists i :: 0 <= i < |es| && es[i] == Some((protocol, a))
  {
    if es != [] {
      var init, e := es[..|es| - 1], es[|es| - 1];
      FiledMembers(init, protocol, a);
      var tail := if e.Some? && e.value.0 == protocol then [e.value.1] else [];
      assert Filed(es, protocol) == Filed(init, protocol) + tail;
      assert a in tail <==> e == Some((protocol, a));
      assert forall i :: 0 <= i < |init| ==> init[i] == es[i];
      if exists i :: 0 <= i < |es| && es[i] == Some((protocol, a)) {
        var i :| 0 <= i < |es| && es[i] == Some((protocol, a));
        if i < |init| {
          assert init[i] == Some((protocol, a));
        }
      }
    }
  }

  /** What each item of a JSON list gives. */
  function JsonEntries(items: seq<JsonItem>): (r: seq<Option<(string, string)>>)
    ensures |r| == |items| && forall i :: 0 <= i < |items| ==> r[i] == JsonEntry(items[i])
  {
    seq(|items|, i requires 0 <= i < |items| => JsonEntry(items[i]))
  }

  /** The bucket `protocol` after the items of a JSON list, in list order. */
  function JsonKept(items: seq<JsonItem>, protocol: string): (r: seq<string>)
    ensures |r| <= |items|
  {
    Filed(JsonEntries(items), protocol)
  }

  /** An address is in a bucket exactly when some item of the list gives it under that protocol. */
  lemma JsonKeptMembers(items: seq<JsonItem>, protocol: string, a: string)
    ensures a in JsonKept(items, protocol) <==>
      exists i :: 0 <= i < |items| && JsonEntry(items[i]) == Some((protocol, a))
  {
    FiledMembers(JsonEntries(items), protocol, a);
  }

  /** A url "scheme://address" with a recognised scheme as written gives that scheme's bucket and the address. */
  lemma JsonUrlEntry(scheme: string, address: string, protocol: Option<string>, ip: string, port: string)
    requires Recognised(scheme) && address != [] && '\n' !in address
    ensures JsonEntry(JsonItem(Some(scheme + "://" + address), protocol, ip, port)) == Some((Canonical(scheme), address))
  {
    RecognisedShape(scheme);
    SchemeMatchOf(scheme, address);
  }

  /**
   * An item without a url (or with an empty one) gives "ip:port" under its declared protocol,
   * lower-cased and "http" when absent; it is kept exactly when that protocol is recognised.
   */
  lemma JsonAddressEntry(url: Option<string>, protocol: Option<string>, ip: string, port: string)
    requires url.None? || url.value == ""
    ensures var p := Lower(protocol.GetOr("http"));
      JsonEntry(JsonItem(url, protocol, ip, port)) == if Recognised(p) then Some((Canonical(p), ip + ":" + port)) else None
    ensures protocol.None? ==> JsonEntry(JsonItem(url, protocol, ip, port)) == Some(("http", ip + ":" + port))
  {
    assert Lower("http") == "http";
  }

  /**
   * An element of the JSON list as the loop meets it: an item it reads, or one whose reading
   * raises (not an object, a `protocol` that is null or not a string, a truthy `url` that is
   * not a string).
   */
  datatype JsonElement = Item(item: JsonItem) | Unreadable

  /** The elements as items, or None as soon as one of them cannot be read. */
  function JsonItems(elements: seq<JsonElement>): (r: Option<seq<JsonItem>>)
    ensures r.None? <==> exists i :: 0 <= i < |elements| && elements[i].Unreadable?
    ensures r.Some? ==> |r.value| == |elements| && forall i :: 0 <= i < |elements| ==> elements[i] == Item(r.value[i])
  {
    if elements == [] then Some([])
    else
      var last := elements[|elements| - 1];
      match JsonItems(elements[..|elements| - 1])
      case None => None
      case Some(init) => if last.Unreadable? then None else Some(init + [last.item])
  }

  /**
   * A JSON list import: None where an element raises, which the import reports as an error
   * and which imports nothing, however many other elements were fine; otherwise the three
   * buckets the items fill.
   */
  function JsonImport(elements: seq<JsonElement>): (r: Option<Batch>)
    ensures r.None? <==> exists i :: 0 <= i < |elements| && elements[i].Unreadable?
    ensures r.Some? ==> forall q :: Bucketed(q) ==> BucketOf(r.value, q) == JsonKept(JsonItems(elements).value, q)
  {
    match JsonItems(elements)
    case None => None
    case Some(items) => Some(Batch(JsonKept(items, "http"), JsonKept(items, "socks4"), JsonKept(items, "socks5")))
  }

  /**
   * The two branches disagree on case: an upper-case bucket scheme is accepted in a text file
   * and dropped in a JSON url.
   */
  lemma UpperSchemeOnlyInText(scheme: string, address: string)
    requires Bucketed(Lower(scheme)) && scheme != Lower(scheme) && IsAddress(address)
    ensures ParseImportLine(scheme + "://" + address) == Entry(Lower(scheme), address)
    ensures JsonEntry(JsonItem(Some(scheme + "://" + address), None, "", "")) == None
  {
    SchemeLineImports(scheme, address);
    BucketSchemeChars(scheme);
    AddressNoNewline(address);
    SchemeMatchOf(scheme, address);
    UpperSchemeDropped(scheme, address);
  }

  /** A JSON url whose scheme is not a bucket as written is dropped. */
  lemma UpperSchemeDropped(scheme: string, address: string)
    requires scheme != Lower(scheme)
    requires SchemeMatch(scheme + "://" + address) == Some((scheme, address))
    ensures JsonEntry(JsonItem(Some(scheme + "://" + address), None, "", "")) == None
  {
    RecognisedIsLower(scheme);
    assert !Recognised(scheme);
  }
}

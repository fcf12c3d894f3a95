/**
 * The regular expressions the tool applies to proxy addresses, written out as
 * matchers with the backtracking resolved. `\d` is read as the ASCII digits.
 *
 *   IpPortPrefix  re.match(r'\d{1,3}\.\d{1,3}\.\d{1,3}\.\d{1,3}:\d+', s)
 *   IpPortFull    re.match(r'^\d{1,3}(?:\.\d{1,3}){3}:\d+$', s)
 *   FindAllIpPort re.findall(r'\d{1,3}\.\d{1,3}\.\d{1,3}\.\d{1,3}:\d{2,5}', s)
 *
 * Each matcher reads a prefix of its argument and answers how long the match is.
 */
module Patterns {
  import opened Wrappers
  import opened Text

  /** The separators after the four octets of "a.b.c.d:". */
  const HostSeps: seq<char> := ['.', '.', '.', ':']

  /** Number of leading ASCII digits. */
  function DigitRun(s: string): (n: nat)
    ensures n <= |s|
  {
    if s == [] || !IsDigit(s[0]) then 0 else 1 + DigitRun(s[1..])
  }

  /** The run is made of digits and is not followed by one. */
  lemma {:induction false} DigitRunIsRun(s: string)
    ensures AllDigits(s[..DigitRun(s)])
    ensures DigitRun(s) < |s| ==> !IsDigit(s[DigitRun(s)])
  {
    if s != [] && IsDigit(s[0]) {
      DigitRunIsRun(s[1..]);
      assert s[..DigitRun(s)] == [s[0]] + s[1..][..DigitRun(s[1..])];
    }
  }

  /**
   * `\d{1,3}` and then the character `sep`: the length read, separator included. The
   * greedy quantifier tries three digits first; with a separator that is not a digit at
   * most one of the three lengths can succeed.
   */
  function Octet(s: string, sep: char): (r: Option<nat>)
    ensures r.Some? ==> 2 <= r.value <= 4 && r.value <= |s| && s[r.value - 1] == sep
    ensures r.Some? ==> IsOctetText(s[..r.value - 1])
  {
    if |s| >= 4 && IsDigit(s[0]) && IsDigit(s[1]) && IsDigit(s[2]) && s[3] == sep then Some(4)
    else if |s| >= 3 && IsDigit(s[0]) && IsDigit(s[1]) && s[2] == sep then Some(3)
    else if |s| >= 2 && IsDigit(s[0]) && s[1] == sep then Some(2)
    else None
  }

  /** One octet before each separator of `seps`, in order: the length read. */
  function Fields(s: string, seps: seq<char>): (r: Option<nat>)
    ensures r.Some? ==> r.value <= |s|
    decreases seps
  {
    if seps == [] then Some(0)
    else
      match Octet(s, seps[0])
      case None => None
      case Some(a) =>
        match Fields(s[a..], seps[1..])
        case None => None
        case Some(b) => Some(a + b)
  }

  /** Fields before the separators `seps`, then a port `\d+`: the length read. */
  function FieldsPortLen(s: string, seps: seq<char>): (r: Option<nat>)
    ensures r.Some? ==> 0 < r.value <= |s|
  {
    match Fields(s, seps)
    case None => None
    case Some(p) =>
      var n := DigitRun(s[p..]);
      if n >= 1 then Some(p + n) else None
  }

  /** Length of a match of the address pattern with port `\d+`. */
  function IpPortLen(s: string): (r: Option<nat>)
    ensures r.Some? ==> 0 < r.value <= |s|
  {
    FieldsPortLen(s, HostSeps)
  }

  /** The pattern used by the fetcher's line mode: matched at the start, anything may follow. */
  predicate IpPortPrefix(s: string) {
    IpPortLen(s).Some?
  }

  /** The pattern used by the file import: the whole string, where `$` also allows one final newline. */
  predicate IpPortFull(s: string) {
    FullWith(s, HostSeps)
  }

  // ---------------------------------------------------------------- reference definition

  predicate IsOctetText(q: string) { 1 <= |q| <= 3 && AllDigits(q) }

  predicate AllOctets(qs: seq<string>) { forall i :: 0 <= i < |qs| ==> IsOctetText(qs[i]) }

  /** The octets written out, each followed by its separator. */
  function Joined(qs: seq<string>, seps: seq<char>): string
    requires |qs| == |seps|
  {
    if seps == [] then [] else qs[0] + [seps[0]] + Joined(qs[1..], seps[1..])
  }

  /** Independent definition: "q0.q1.q2.q3:port" with 1-3 digit octets and a non-empty digit port. */
  ghost predicate IsAddress(s: string) {
    IsJoinedWith(s, HostSeps)
  }

  lemma {:induction false} DigitRunOf(w: string, tail: string)
    requires AllDigits(w) && (tail == [] || !IsDigit(tail[0]))
    ensures DigitRun(w + tail) == |w|
  {
    if w != [] {
      assert (w + tail)[1..] == w[1..] + tail;
      DigitRunOf(w[1..], tail);
    }
  }

  lemma OctetOf(q: string, sep: char, rest: string, s: string)
    requires IsOctetText(q) && !IsDigit(sep) && s == q + [sep] + rest
    ensures Octet(s, sep) == Some(|q| + 1) && s[|q| + 1..] == rest
  {
    assert s[|q|] == sep;
    assert forall i :: 0 <= i < |q| ==> s[i] == q[i];
  }

  /** One octet and its separator, then the other fields. */
  lemma FieldsCons(q: string, more: string, s: string, seps: seq<char>, b: nat)
    requires seps != [] && IsOctetText(q) && !IsDigit(seps[0])
    requires Fields(more, seps[1..]) == Some(b) && s == q + [seps[0]] + more
    ensures Fields(s, seps) == Some(|q| + 1 + b)
  {
    OctetOf(q, seps[0], more, s);
    FieldsAfterOctet(s, |q| + 1, seps, b);
  }

  lemma FieldsAfterOctet(s: string, a: nat, seps: seq<char>, b: nat)
    requires seps != [] && Octet(s, seps[0]) == Some(a) && Fields(s[a..], seps[1..]) == Some(b)
    ensures Fields(s, seps) == Some(a + b)
  {
    var o := Octet(s, seps[0]);
    assert o == Some(a);
  }

  predicate NoDigits(seps: seq<char>) { forall i :: 0 <= i < |seps| ==> !IsDigit(seps[i]) }

  lemma NoDigitsTail(seps: seq<char>)
    requires seps != [] && NoDigits(seps)
    ensures !IsDigit(seps[0]) && NoDigits(seps[1..])
  {
    assert forall i :: 0 <= i < |seps[1..]| ==> seps[1..][i] == seps[i + 1];
  }

  lemma AllOctetsTail(qs: seq<string>)
    requires qs != [] && AllOctets(qs)
    ensures IsOctetText(qs[0]) && AllOctets(qs[1..])
  {
    assert forall i :: 0 <= i < |qs[1..]| ==> qs[1..][i] == qs[i + 1];
  }

  lemma JoinedStep(qs: seq<string>, seps: seq<char>, rest: string)
    requires |qs| == |seps| && seps != []
    ensures Joined(qs, seps) + rest == qs[0] + [seps[0]] + (Joined(qs[1..], seps[1..]) + rest)
    ensures |Joined(qs, seps)| == |qs[0]| + 1 + |Joined(qs[1..], seps[1..])|
  {
  }

  /** The field reader accepts written-out octets, whatever follows them. */
  lemma {:induction false} FieldsOf(qs: seq<string>, seps: seq<char>, rest: string)
    requires |qs| == |seps| && AllOctets(qs)
    requires NoDigits(seps)
    ensures Fields(Joined(qs, seps) + rest, seps) == Some(|Joined(qs, seps)|)
    decreases seps
  {
    if seps != [] {
      var tail := Joined(qs[1..], seps[1..]);
      AllOctetsTail(qs);
      NoDigitsTail(seps);
      FieldsOf(qs[1..], seps[1..], rest);
      JoinedStep(qs, seps, rest);
      FieldsCons(qs[0], tail + rest, Joined(qs, seps) + rest, seps, |tail|);
    }
  }

  /** What the field reader accepted, cut back into octets. */
  lemma {:induction false} FieldsParts(s: string, seps: seq<char>) returns (qs: seq<string>)
    requires Fields(s, seps).Some?
    ensures |qs| == |seps| && AllOctets(qs)
    ensures s[..Fields(s, seps).value] == Joined(qs, seps)
    decreases seps
  {
    if seps == [] {
      qs := [];
    } else {
      var a := Octet(s, seps[0]).value;
      var more := FieldsParts(s[a..], seps[1..]);
      qs := FieldsPartsStep(s, seps, a, Fields(s[a..], seps[1..]).value, more);
    }
  }

  /** One octet cut off the front, put before the octets cut from the rest. */
  lemma FieldsPartsStep(s: string, seps: seq<char>, a: nat, b: nat, more: seq<string>) returns (qs: seq<string>)
    requires seps != [] && Octet(s, seps[0]) == Some(a) && Fields(s[a..], seps[1..]) == Some(b)
    requires |more| == |seps| - 1 && AllOctets(more) && s[a..][..b] == Joined(more, seps[1..])
    ensures qs == [s[..a - 1]] + more
    ensures |qs| == |seps| && AllOctets(qs)
    ensures a + b <= |s| && s[..a + b] == Joined(qs, seps)
  {
    qs := [s[..a - 1]] + more;
    assert qs[1..] == more;
    assert s[..a + b] == s[..a - 1] + [seps[0]] + s[a..][..b];
    JoinedStep(qs, seps, []);
    assert IsOctetText(qs[0]);
    assert forall i :: 1 <= i < |qs| ==> qs[i] == more[i - 1];
  }

  lemma HostSepsNotDigits()
    ensures NoDigits(HostSeps)
  {
  }

  lemma FieldsPortLenOf(s: string, seps: seq<char>, p: nat, n: nat)
    requires p <= |s| && Fields(s, seps) == Some(p) && DigitRun(s[p..]) == n && n >= 1
    ensures FieldsPortLen(s, seps) == Some(p + n)
  {
  }

  lemma IpPortLenOf(s: string, p: nat, n: nat)
    requires p <= |s| && Fields(s, HostSeps) == Some(p) && DigitRun(s[p..]) == n && n >= 1
    ensures IpPortLen(s) == Some(p + n)
  {
    FieldsPortLenOf(s, HostSeps, p, n);
  }

  lemma IpPortLenParts(s: string) returns (p: nat)
    requires IpPortLen(s).Some?
    ensures p <= IpPortLen(s).value && Fields(s, HostSeps) == Some(p)
    ensures DigitRun(s[p..]) == IpPortLen(s).value - p
  {
    p := FieldsPortLenParts(s, HostSeps);
  }

  lemma FieldsPortLenParts(s: string, seps: seq<char>) returns (p: nat)
    requires FieldsPortLen(s, seps).Some?
    ensures p <= FieldsPortLen(s, seps).value && Fields(s, seps) == Some(p)
    ensures DigitRun(s[p..]) == FieldsPortLen(s, seps).value - p
  {
    p := Fields(s, seps).value;
  }


  /** Written-out fields and a port are read exactly, when no digit follows them. */
  lemma JoinedPortLen(qs: seq<string>, seps: seq<char>, port: string, tail: string)
    requires |qs| == |seps| && AllOctets(qs) && NoDigits(seps)
    requires |port| >= 1 && AllDigits(port) && (tail == [] || !IsDigit(tail[0]))
    ensures FieldsPortLen(Joined(qs, seps) + port + tail, seps) == Some(|Joined(qs, seps)| + |port|)
  {
    var host := Joined(qs, seps);
    var s := host + port + tail;
    FieldsOf(qs, seps, port + tail);
    assert s == host + (port + tail);
    assert s[|host|..] == port + tail;
    DigitRunOf(port, tail);
    FieldsPortLenOf(s, seps, |host|, |port|);
  }

  /** What the reader accepts is written-out fields and a port. */
  lemma FieldsPortParts(s: string, seps: seq<char>) returns (qs: seq<string>, port: string)
    requires FieldsPortLen(s, seps).Some?
    ensures |qs| == |seps| && AllOctets(qs) && |port| >= 1 && AllDigits(port)
    ensures s[..FieldsPortLen(s, seps).value] == Joined(qs, seps) + port
  {
    var e := FieldsPortLen(s, seps).value;
    var p := FieldsPortLenParts(s, seps);
    qs := FieldsParts(s, seps);
    port := s[p..e];
    DigitRunIsRun(s[p..]);
    assert port == s[p..][..DigitRun(s[p..])];
    assert s[..e] == s[..p] + port;
  }

  /** The prefix reader succeeds exactly when some prefix is written-out fields and a port. */
  lemma FieldsPortPrefixIff(s: string, seps: seq<char>)
    requires NoDigits(seps)
    ensures FieldsPortLen(s, seps).Some? <==> exists k :: 0 < k <= |s| && IsJoinedWith(s[..k], seps)
  {
    if FieldsPortLen(s, seps).Some? {
      var e := FieldsPortLen(s, seps).value;
      var qs, port := FieldsPortParts(s, seps);
      assert IsJoinedWith(s[..e], seps);
    }
    if exists k :: 0 < k <= |s| && IsJoinedWith(s[..k], seps) {
      var k :| 0 < k <= |s| && IsJoinedWith(s[..k], seps);
      var qs: seq<string>, port: string :|
        |qs| == |seps| && AllOctets(qs) && |port| >= 1 && AllDigits(port) && s[..k] == Joined(qs, seps) + port;
      JoinedPrefix(qs, seps, port, s[k..]);
      assert s == Joined(qs, seps) + port + s[k..];
    }
  }

  /** Written-out fields and a port are accepted by the prefix reader, whatever follows them. */
  lemma JoinedPrefix(qs: seq<string>, seps: seq<char>, port: string, tail: string)
    requires |qs| == |seps| && AllOctets(qs) && NoDigits(seps) && |port| >= 1 && AllDigits(port)
    ensures FieldsPortLen(Joined(qs, seps) + port + tail, seps).Some?
  {
    var host := Joined(qs, seps);
    var s := host + port + tail;
    FieldsOf(qs, seps, port + tail);
    assert s == host + (port + tail);
    assert s[|host|..] == port + tail;
    assert DigitRun(port + tail) >= 1;
    FieldsPortLenOf(s, seps, |host|, DigitRun(s[|host|..]));
  }

  /** The whole-string test for fields before `seps` and a port; `$` also takes one final newline. */
  predicate FullWith(s: string, seps: seq<char>) {
    match FieldsPortLen(s, seps)
    case None => false
    case Some(e) => e == |s| || (e == |s| - 1 && s[e] == '\n')
  }

  ghost predicate IsJoinedWith(s: string, seps: seq<char>) {
    exists qs: seq<string>, port: string ::
      |qs| == |seps| && AllOctets(qs) && |port| >= 1 && AllDigits(port) && s == Joined(qs, seps) + port
  }

  lemma FullWithSound(s: string, seps: seq<char>)
    requires FullWith(s, seps)
    ensures IsJoinedWith(s, seps) || (|s| >= 1 && s[|s| - 1] == '\n' && IsJoinedWith(s[..|s| - 1], seps))
  {
    var e := FieldsPortLen(s, seps).value;
    var qs, port := FieldsPortParts(s, seps);
    if e == |s| {
      assert s == s[..e];
    } else {
      assert s[..|s| - 1] == s[..e];
    }
  }

  lemma JoinedIsFull(s: string, seps: seq<char>, tail: string)
    requires NoDigits(seps) && IsJoinedWith(s, seps) && (tail == [] || tail == "\n")
    ensures FullWith(s + tail, seps)
  {
    var qs: seq<string>, port: string :|
      |qs| == |seps| && AllOctets(qs) && |port| >= 1 && AllDigits(port) && s == Joined(qs, seps) + port;
    JoinedPortLen(qs, seps, port, tail);
  }

  lemma NewlineJoinedIsFull(s: string, seps: seq<char>)
    requires NoDigits(seps) && |s| >= 1 && s[|s| - 1] == '\n' && IsJoinedWith(s[..|s| - 1], seps)
    ensures FullWith(s, seps)
  {
    JoinedIsFull(s[..|s| - 1], seps, "\n");
    assert s[..|s| - 1] + "\n" == s;
  }

  lemma FullWithIff(s: string, seps: seq<char>)
    requires NoDigits(seps)
    ensures FullWith(s, seps) <==>
      IsJoinedWith(s, seps) || (|s| >= 1 && s[|s| - 1] == '\n' && IsJoinedWith(s[..|s| - 1], seps))
  {
    if FullWith(s, seps) {
      FullWithSound(s, seps);
    }
    if IsJoinedWith(s, seps) {
      JoinedIsFull(s, seps, []);
      assert s + [] == s;
    }
    if |s| >= 1 && s[|s| - 1] == '\n' && IsJoinedWith(s[..|s| - 1], seps) {
      NewlineJoinedIsFull(s, seps);
    }
  }

  /** The whole-string matcher agrees with the independent definition; its `$` also takes one final newline. */
  lemma IpPortFullIff(s: string)
    ensures IpPortFull(s) <==> IsAddress(s) || (|s| >= 1 && s[|s| - 1] == '\n' && IsAddress(s[..|s| - 1]))
  {
    HostSepsNotDigits();
    FullWithIff(s, HostSeps);
  }

  // ---------------------------------------------------------------- findall

  /** Fields before the separators `seps`, then a port `\d{2,5}` read greedily: the length read. */
  function FieldsShortPortLen(s: string, seps: seq<char>): (r: Option<nat>)
    ensures r.Some? ==> 2 * |seps| + 2 <= r.value <= |s|
  {
    match Fields(s, seps)
    case None => None
    case Some(p) =>
      FieldsAtLeast(s, seps);
      var n := DigitRun(s[p..]);
      if n >= 2 then Some(p + if n > 5 then 5 else n) else None
  }

  /** Length of a match of the scraping pattern. */
  function ScrapeLen(s: string): (r: Option<nat>)
    ensures r.Some? ==> 10 <= r.value <= |s|
  {
    FieldsShortPortLen(s, HostSeps)
  }

  lemma FieldsAtLeast(s: string, seps: seq<char>)
    requires Fields(s, seps).Some?
    ensures Fields(s, seps).value >= 2 * |seps|
    decreases seps
  {
    if seps != [] {
      FieldsAtLeast(s[Octet(s, seps[0]).value..], seps[1..]);
    }
  }

  /** A matcher reads a non-empty prefix of its argument, or nothing. */
  ghost predicate Matcher(m: string -> Option<nat>) {
    forall t :: m(t).Some? ==> 0 < m(t).value <= |t|
  }

  /** re.findall from position i: the leftmost match, then on from where it ends. */
  function FindAllFrom(s: string, i: nat, m: string -> Option<nat>): seq<string>
    requires i <= |s| && Matcher(m)
    decreases |s| - i
  {
    if i == |s| then []
    else
      match m(s[i..])
      case None => FindAllFrom(s, i + 1, m)
      case Some(n) => [s[i..i + n]] + FindAllFrom(s, i + n, m)
  }

  /** The findall pattern with the separators `seps`, as a matcher. */
  function ShortMatch(seps: seq<char>): string -> Option<nat> {
    t => FieldsShortPortLen(t, seps)
  }

  lemma ShortMatchIsMatcher(seps: seq<char>)
    ensures Matcher(ShortMatch(seps))
  {
  }

  /** The proxy addresses re.findall pulls out of a page. */
  function FindAllIpPort(s: string): seq<string> {
    ShortMatchIsMatcher(HostSeps);
    FindAllFrom(s, 0, ShortMatch(HostSeps))
  }

  lemma FieldsShortPortLenOf(s: string, seps: seq<char>, p: nat, n: nat)
    requires p <= |s| && Fields(s, seps) == Some(p) && DigitRun(s[p..]) == n && 2 <= n <= 5
    ensures FieldsShortPortLen(s, seps) == Some(p + n)
  {
  }

  lemma FieldsShortPortLenParts(s: string, seps: seq<char>) returns (p: nat)
    requires FieldsShortPortLen(s, seps).Some?
    ensures Fields(s, seps) == Some(p) && p + 2 <= FieldsShortPortLen(s, seps).value <= p + 5
    ensures p + DigitRun(s[p..]) >= FieldsShortPortLen(s, seps).value
  {
    p := Fields(s, seps).value;
  }

  lemma JoinedShortPortLen(qs: seq<string>, seps: seq<char>, port: string)
    requires |qs| == |seps| && AllOctets(qs) && NoDigits(seps)
    requires 2 <= |port| <= 5 && AllDigits(port)
    ensures FieldsShortPortLen(Joined(qs, seps) + port, seps) == Some(|Joined(qs, seps)| + |port|)
  {
    var host := Joined(qs, seps);
    var s := host + port;
    FieldsOf(qs, seps, port);
    DigitRunOf(port, []);
    assert s[|host|..] == port + [];
    FieldsShortPortLenOf(s, seps, |host|, |port|);
  }

  lemma ShortPortParts(t: string, seps: seq<char>) returns (qs: seq<string>, port: string)
    requires FieldsShortPortLen(t, seps).Some?
    ensures |qs| == |seps| && AllOctets(qs) && 2 <= |port| <= 5 && AllDigits(port)
    ensures t[..FieldsShortPortLen(t, seps).value] == Joined(qs, seps) + port
  {
    var n := FieldsShortPortLen(t, seps).value;
    var p := FieldsShortPortLenParts(t, seps);
    qs := FieldsParts(t, seps);
    port := t[p..n];
    PrefixOfRun(t[p..], n - p);
    assert port == t[p..][..n - p];
    assert t[..n] == t[..p] + port;
  }

  lemma PrefixOfRun(u: string, m: nat)
    requires m <= DigitRun(u)
    ensures AllDigits(u[..m])
  {
    DigitRunIsRun(u);
    var run := u[..DigitRun(u)];
    assert forall k :: 0 <= k < m ==> u[..m][k] == run[k];
  }

  /** A match cut out of the text matches again, whole. */
  lemma ShortPortLocal(t: string, seps: seq<char>)
    requires FieldsShortPortLen(t, seps).Some? && NoDigits(seps)
    ensures FieldsShortPortLen(t[..FieldsShortPortLen(t, seps).value], seps) == Some(FieldsShortPortLen(t, seps).value)
  {
    var qs, port := ShortPortParts(t, seps);
    JoinedShortPortLen(qs, seps, port);
  }

  /** Every string in `xs` is itself a complete match of `m`. */
  predicate AllMatches(xs: seq<string>, m: string -> Option<nat>) {
    forall k :: 0 <= k < |xs| ==> m(xs[k]) == Some(|xs[k]|)
  }

  /** Every match of `m` in `s` from `i` on, cut out of `s`, matches again whole. */
  ghost predicate LocalIn(s: string, i: nat, m: string -> Option<nat>) {
    forall j :: i <= j < |s| && m(s[j..]).Some? && j + m(s[j..]).value <= |s| ==>
      m(s[j..j + m(s[j..]).value]) == m(s[j..])
  }

  /** Every string findall returns is itself a complete match of the pattern. */
  lemma {:induction false} FoundAreMatchesFrom(s: string, i: nat, m: string -> Option<nat>)
    requires i <= |s| && Matcher(m) && LocalIn(s, i, m)
    ensures AllMatches(FindAllFrom(s, i, m), m)
    decreases |s| - i
  {
    if i < |s| {
      match m(s[i..])
      case None =>
        FoundAreMatchesFrom(s, i + 1, m);
      case Some(n) =>
        FoundAreMatchesFrom(s, i + n, m);
        var rest := FindAllFrom(s, i + n, m);
        var found := [s[i..i + n]] + rest;
        assert FindAllFrom(s, i, m) == found;
        forall k | 0 < k < |found|
          ensures found[k] == rest[k - 1]
        {
        }
    }
  }

  lemma MatchCut(s: string, i: nat, n: nat, seps: seq<char>)
    requires i < |s| && NoDigits(seps) && FieldsShortPortLen(s[i..], seps) == Some(n)
    ensures i + n <= |s| && FieldsShortPortLen(s[i..i + n], seps) == Some(n)
  {
    ShortPortLocal(s[i..], seps);
    assert s[i..][..n] == s[i..i + n];
  }

  lemma ShortMatchLocal(s: string, seps: seq<char>)
    requires NoDigits(seps)
    ensures LocalIn(s, 0, ShortMatch(seps))
  {
    var m := ShortMatch(seps);
    forall j | 0 <= j < |s| && m(s[j..]).Some? && j + m(s[j..]).value <= |s|
      ensures m(s[j..j + m(s[j..]).value]) == m(s[j..])
    {
      ShortMatchCut(s, j, seps);
    }
  }

  lemma ShortMatchCut(s: string, j: nat, seps: seq<char>)
    requires NoDigits(seps) && j < |s| && ShortMatch(seps)(s[j..]).Some?
    ensures var n := ShortMatch(seps)(s[j..]).value;
      j + n <= |s| && ShortMatch(seps)(s[j..j + n]) == ShortMatch(seps)(s[j..])
  {
    var n := FieldsShortPortLen(s[j..], seps).value;
    MatchCut(s, j, n, seps);
  }

  lemma FoundAreMatches(s: string)
    ensures forall k :: 0 <= k < |FindAllIpPort(s)| ==> ScrapeLen(FindAllIpPort(s)[k]) == Some(|FindAllIpPort(s)[k]|)
  {
    HostSepsNotDigits();
    ShortMatchIsMatcher(HostSeps);
    ShortMatchLocal(s, HostSeps);
    FoundAreMatchesFrom(s, 0, ShortMatch(HostSeps));
  }
}

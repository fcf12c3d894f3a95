/**
 * The parts of Python's str that the proxy tool relies on: strip, split, splitlines,
 * lower/upper, substring search, int() and str() on integers.
 * Case mapping and digits are ASCII; whitespace is Python's full str.isspace() set.
 */
module Text {
  import opened Wrappers

  /** Python's str.isspace() for one character. */
  predicate IsSpace(c: char) {
    ('\t' <= c <= '\r') || ('\U{1C}' <= c <= '\U{1F}') || c == ' ' || c == '\U{85}' ||
    c == '\U{A0}' || c == '\U{1680}' || ('\U{2000}' <= c <= '\U{200A}') ||
    c == '\U{2028}' || c == '\U{2029}' || c == '\U{202F}' || c == '\U{205F}' || c == '\U{3000}'
  }

  predicate IsDigit(c: char) { '0' <= c <= '9' }

  /** Characters of the regular-expression class \w (ASCII part). */
  predicate IsWordChar(c: char) {
    ('a' <= c <= 'z') || ('A' <= c <= 'Z') || IsDigit(c) || c == '_'
  }

  predicate NoSpace(s: string) { forall i :: 0 <= i < |s| ==> !IsSpace(s[i]) }

  // ---------------------------------------------------------------- strip

  function TrimLeft(s: string): (r: string)
    ensures |r| <= |s| && r == s[|s| - |r|..]
    ensures forall i :: 0 <= i < |s| - |r| ==> IsSpace(s[i])
    ensures r != [] ==> !IsSpace(r[0])
  {
    if |s| > 0 && IsSpace(s[0]) then TrimLeft(s[1..]) else s
  }

  function TrimRight(s: string): (r: string)
    ensures |r| <= |s| && r == s[..|r|]
    ensures forall i :: |r| <= i < |s| ==> IsSpace(s[i])
    ensures r != [] ==> !IsSpace(r[|r| - 1])
  {
    if |s| > 0 && IsSpace(s[|s| - 1]) then TrimRight(s[..|s| - 1]) else s
  }

  /** Python's str.strip() with no argument. */
  function Strip(s: string): (r: string)
    ensures |r| <= |s|
    ensures r != [] ==> !IsSpace(r[0]) && !IsSpace(r[|r| - 1])
  {
    TrimRight(TrimLeft(s))
  }

  /** A string with no whitespace at either end is left unchanged by strip. */
  lemma StripUnchanged(s: string)
    requires s == [] || (!IsSpace(s[0]) && !IsSpace(s[|s| - 1]))
    ensures Strip(s) == s
  {
  }

  /** A character that can stand at the end of an address or a scheme is not whitespace. */
  predicate Printable(c: char) { IsWordChar(c) || c == '.' || c == ':' }

  /** A string that starts and ends with such characters is left unchanged by strip. */
  lemma StripPrintable(s: string)
    requires s != [] && Printable(s[0]) && Printable(s[|s| - 1])
    ensures Strip(s) == s
  {
    StripUnchanged(s);
  }

  /** Strip takes out a contiguous slice. */
  lemma StripSlice(s: string) returns (i: nat)
    ensures i + |Strip(s)| <= |s| && Strip(s) == s[i..i + |Strip(s)|]
  {
    var l := TrimLeft(s);
    i := |s| - |l|;
    assert Strip(s) == l[..|Strip(s)|];
  }

  /** Leading whitespace stops at a character that is not whitespace. */
  lemma {:induction false} TrimLeftAt(h: string, c: char, p: string)
    requires !IsSpace(c)
    ensures TrimLeft(h + [c] + p) == TrimLeft(h) + [c] + p
  {
    if |h| > 0 {
      assert (h + [c] + p)[0] == h[0];
      if IsSpace(h[0]) {
        assert (h + [c] + p)[1..] == h[1..] + [c] + p;
        TrimLeftAt(h[1..], c, p);
      }
    } else {
      assert h + [c] + p == [c] + p;
    }
  }

  /** Trailing whitespace stops at a character that is not whitespace. */
  lemma {:induction false} TrimRightAt(h: string, c: char, p: string)
    requires !IsSpace(c)
    ensures TrimRight(h + [c] + p) == h + [c] + TrimRight(p)
    decreases |p|
  {
    if |p| > 0 {
      var s := h + [c] + p;
      assert s[|s| - 1] == p[|p| - 1];
      if IsSpace(p[|p| - 1]) {
        assert s[..|s| - 1] == h + [c] + p[..|p| - 1];
        TrimRightAt(h, c, p[..|p| - 1]);
      }
    } else {
      assert h + [c] + p == h + [c];
    }
  }

  /** Stripping around a character that is not whitespace strips the two sides. */
  lemma StripAround(h: string, c: char, p: string)
    requires !IsSpace(c)
    ensures Strip(h + [c] + p) == TrimLeft(h) + [c] + TrimRight(p)
  {
    TrimLeftAt(h, c, p);
    TrimRightAt(TrimLeft(h), c, p);
  }

  // ---------------------------------------------------------------- case

  function LowerChar(c: char): char {
    if 'A' <= c <= 'Z' then (c as int + 32) as char else c
  }

  function UpperChar(c: char): char {
    if 'a' <= c <= 'z' then (c as int - 32) as char else c
  }

  /** Python's str.lower() on the ASCII letters, character by character. */
  function Lower(s: string): string {
    seq(|s|, i requires 0 <= i < |s| => LowerChar(s[i]))
  }

  /** Lowering keeps a last character that is not a line feed. */
  lemma LowerEnd(t: string)
    requires t == [] || t[|t| - 1] != '\n'
    ensures Lower(t) == [] || Lower(t)[|t| - 1] != '\n'
  {
  }

  /** Python's str.upper() on the ASCII letters, character by character. */
  function Upper(s: string): string {
    seq(|s|, i requires 0 <= i < |s| => UpperChar(s[i]))
  }

  // ---------------------------------------------------------------- search

  predicate StartsWith<T(==)>(s: seq<T>, prefix: seq<T>) {
    |prefix| <= |s| && s[..|prefix|] == prefix
  }

  predicate OccursAt<T(==)>(s: seq<T>, sub: seq<T>, i: int) {
    0 <= i && i + |sub| <= |s| && s[i..i + |sub|] == sub
  }

  /** The first position at or after `from` where `sub` occurs in `s`. */
  function IndexFrom<T(==)>(s: seq<T>, sub: seq<T>, from: nat): (r: Option<nat>)
    ensures r.Some? ==> from <= r.value && OccursAt(s, sub, r.value)
    ensures r.Some? ==> forall j :: from <= j < r.value ==> !OccursAt(s, sub, j)
    ensures r.None? ==> forall j :: from <= j ==> !OccursAt(s, sub, j)
    decreases |s| - from
  {
    if from + |sub| > |s| then None
    else if OccursAt(s, sub, from) then Some(from)
    else IndexFrom(s, sub, from + 1)
  }

  /** Position of the first occurrence (Python's str.find, as an option). */
  function IndexOf<T(==)>(s: seq<T>, sub: seq<T>): Option<nat> {
    IndexFrom(s, sub, 0)
  }

  /** Python's `sub in s` for strings. */
  predicate Contains<T(==)>(s: seq<T>, sub: seq<T>) {
    IndexOf(s, sub).Some?
  }

  lemma ContainsAt<T>(s: seq<T>, sub: seq<T>, i: int)
    requires OccursAt(s, sub, i)
    ensures Contains(s, sub)
  {
  }

  /** A slice of a sequence that has no occurrence of `sub` has none either. */
  lemma NotContainsSlice<T>(s: seq<T>, sub: seq<T>, a: nat, b: nat)
    requires a <= b <= |s| && !Contains(s, sub)
    ensures !Contains(s[a..b], sub)
  {
    if Contains(s[a..b], sub) {
      var i := IndexOf(s[a..b], sub).value;
      assert s[a..b][i..i + |sub|] == s[a + i..a + i + |sub|];
      assert OccursAt(s, sub, a + i);
    }
  }

  /** An occurrence of a string is also an occurrence of each of its prefixes. */
  lemma ContainsPrefix<T>(s: seq<T>, sub: seq<T>, n: nat)
    requires Contains(s, sub) && n <= |sub|
    ensures Contains(s, sub[..n])
  {
    var i := IndexOf(s, sub).value;
    assert s[i..i + n] == s[i..i + |sub|][..n];
    ContainsAt(s, sub[..n], i);
  }

  lemma ContainsChar(s: string, c: char)
    ensures Contains(s, [c]) <==> c in s
  {
    if c in s {
      var i :| 0 <= i < |s| && s[i] == c;
      assert OccursAt(s, [c], i);
    }
    if Contains(s, [c]) {
      var i := IndexOf(s, [c]).value;
      assert s[i..i + 1] == [c];
      assert s[i] == c;
    }
  }

  // ---------------------------------------------------------------- split on a character

  /** Python's str.split(sep) for a one-character separator. */
  function Split(s: string, sep: char): (parts: seq<string>)
    ensures |parts| >= 1
    ensures forall i :: 0 <= i < |parts| ==> sep !in parts[i]
  {
    if |s| == 0 then [""]
    else
      var rest := Split(s[1..], sep);
      if s[0] == sep then [""] + rest
      else [[s[0]] + rest[0]] + rest[1..]
  }

  /** Python's sep.join(parts) for a one-character separator. */
  function Join(parts: seq<string>, sep: char): string
    requires |parts| >= 1
  {
    if |parts| == 1 then parts[0] else parts[0] + [sep] + Join(parts[1..], sep)
  }

  /** Joining the pieces of a split gives back the original string. */
  lemma {:induction false} JoinSplit(s: string, sep: char)
    ensures Join(Split(s, sep), sep) == s
  {
    if |s| > 0 {
      var rest := Split(s[1..], sep);
      JoinSplit(s[1..], sep);
      if s[0] != sep && |rest| > 1 {
        assert Split(s, sep)[1..] == rest[1..];
      }
    }
  }

  /** Splitting a join of separator-free pieces gives back the pieces. */
  lemma {:induction false} SplitJoin(parts: seq<string>, sep: char)
    requires |parts| >= 1
    requires forall i :: 0 <= i < |parts| ==> sep !in parts[i]
    ensures Split(Join(parts, sep), sep) == parts
  {
    if |parts| == 1 {
      SplitNoSep(parts[0], sep);
    } else {
      SplitJoin(parts[1..], sep);
      SplitPrefix(parts[0], Join(parts[1..], sep), sep);
      assert parts == [parts[0]] + parts[1..];
    }
  }

  lemma {:induction false} SplitNoSep(s: string, sep: char)
    requires sep !in s
    ensures Split(s, sep) == [s]
  {
    if |s| > 0 {
      SplitNoSep(s[1..], sep);
      assert [s[0]] + s[1..] == s;
    }
  }

  /** Splitting `a + [sep] + b` where `a` has no separator. */
  lemma {:induction false} SplitPrefix(a: string, b: string, sep: char)
    requires sep !in a
    ensures Split(a + [sep] + b, sep) == [a] + Split(b, sep)
  {
    if |a| == 0 {
      assert a + [sep] + b == [sep] + b;
      assert ([sep] + b)[1..] == b;
    } else {
      SplitPrefix(a[1..], b, sep);
      assert (a + [sep] + b)[1..] == a[1..] + [sep] + b;
      assert [a[0]] + a[1..] == a;
    }
  }

  /** A string splits into more than one piece exactly when it holds the separator. */
  lemma {:induction false} SplitManyIffSep(s: string, sep: char)
    ensures |Split(s, sep)| > 1 <==> sep in s
  {
    if |s| > 0 {
      SplitManyIffSep(s[1..], sep);
      assert sep in s <==> s[0] == sep || sep in s[1..];
    }
  }

  /** Python's str.split(sep, 1): the text before the first separator and the rest. */
  function SplitOnce(s: string, sep: char): (parts: seq<string>)
    ensures 1 <= |parts| <= 2
    ensures |parts| == 2 <==> sep in s
    ensures |parts| == 2 ==> parts[0] + [sep] + parts[1] == s && sep !in parts[0]
    ensures |parts| == 1 ==> parts[0] == s
  {
    if |s| == 0 then [""]
    else if s[0] == sep then ["", s[1..]]
    else
      var rest := SplitOnce(s[1..], sep);
      if |rest| == 1 then [s] else [[s[0]] + rest[0], rest[1]]
  }

  // ---------------------------------------------------------------- split on a longer separator

  /** Python's split with a separator of any non-zero length, scanning left to right. */
  function SplitOn<T(==)>(s: seq<T>, sep: seq<T>): (parts: seq<seq<T>>)
    requires |sep| > 0
    ensures |parts| >= 1
    decreases |s|
  {
    match IndexOf(s, sep)
    case None => [s]
    case Some(i) => [s[..i]] + SplitOn(s[i + |sep|..], sep)
  }

  /** The piece after the last separator (Python's `s.split(sep)[-1]`). */
  function LastPiece<T(==)>(s: seq<T>, sep: seq<T>): seq<T>
    requires |sep| > 0
  {
    var p := SplitOn(s, sep);
    p[|p| - 1]
  }

  /** The last piece of a split holds no separator and ends the original sequence. */
  lemma {:induction false} LastPieceOf<T>(s: seq<T>, sep: seq<T>)
    requires |sep| > 0
    ensures !Contains(LastPiece(s, sep), sep)
    ensures |LastPiece(s, sep)| <= |s| && LastPiece(s, sep) == s[|s| - |LastPiece(s, sep)|..]
    decreases |s|
  {
    match IndexOf(s, sep)
    case None =>
    case Some(i) =>
      var rest := s[i + |sep|..];
      LastPieceOf(rest, sep);
      var p := SplitOn(rest, sep);
      assert SplitOn(s, sep) == [s[..i]] + p;
      assert LastPiece(s, sep) == LastPiece(rest, sep);
      var last := LastPiece(rest, sep);
      assert rest[|rest| - |last|..] == s[|s| - |last|..];
  }

  /** With a one-character separator, the last piece is whatever follows its last occurrence. */
  lemma {:induction false} LastPieceAfter(a: string, c: char, x: string)
    requires c !in x
    ensures LastPiece(a + [c] + x, [c]) == x
    decreases |a|
  {
    var s := a + [c] + x;
    assert OccursAt(s, [c], |a|);
    var i := IndexOf(s, [c]).value;
    assert SplitOn(s, [c]) == [s[..i]] + SplitOn(s[i + 1..], [c]);
    assert LastPiece(s, [c]) == LastPiece(s[i + 1..], [c]);
    if i < |a| {
      assert s[i + 1..] == a[i + 1..] + [c] + x;
      LastPieceAfter(a[i + 1..], c, x);
    } else {
      assert s[i + 1..] == x;
      ContainsChar(x, c);
    }
  }

  /** The first piece of a split is the text before the first separator. */
  lemma FirstPieceOf<T>(s: seq<T>, sep: seq<T>)
    requires |sep| > 0
    ensures var first := SplitOn(s, sep)[0];
      StartsWith(s, first) && !Contains(first, sep)
  {
    match IndexOf(s, sep)
    case None =>
    case Some(i) =>
      var first := s[..i];
      if Contains(first, sep) {
        var j := IndexOf(first, sep).value;
        assert first[j..j + |sep|] == s[j..j + |sep|];
        assert OccursAt(s, sep, j);
      }
  }

  // ---------------------------------------------------------------- whitespace words and lines

  /** Length of the longest prefix without whitespace. */
  function WordLen(s: string): (n: nat)
    ensures n <= |s| && NoSpace(s[..n]) && (n < |s| ==> IsSpace(s[n]))
  {
    if |s| == 0 || IsSpace(s[0]) then 0 else 1 + WordLen(s[1..])
  }

  /** Python's str.split() with no argument: the runs of non-whitespace. */
  function Words(s: string): (ws: seq<string>)
    ensures forall i :: 0 <= i < |ws| ==> ws[i] != [] && NoSpace(ws[i])
    decreases |s|
  {
    if s == [] then []
    else if IsSpace(s[0]) then Words(s[1..])
    else
      var n := WordLen(s);
      [s[..n]] + Words(s[n..])
  }

  /** Splitting words joined by single spaces gives back the words. */
  lemma {:induction false} WordsOfJoin(ws: seq<string>)
    requires |ws| >= 1
    requires forall i :: 0 <= i < |ws| ==> ws[i] != [] && NoSpace(ws[i])
    ensures Words(Join(ws, ' ')) == ws
  {
    var w := ws[0];
    if |ws| == 1 {
      WordLenOf(w, "");
      assert w + "" == w;
      assert Join(ws, ' ') == w;
      assert w[..|w|] == w && w[|w|..] == [];
    } else {
      var rest := Join(ws[1..], ' ');
      var s := w + [' '] + rest;
      WordLenOf(w, [' '] + rest);
      assert s == w + ([' '] + rest);
      assert Join(ws, ' ') == s;
      assert s[..|w|] == w && s[|w|..] == [' '] + rest;
      assert Words(s) == [w] + Words([' '] + rest);
      assert ([' '] + rest)[1..] == rest;
      WordsOfJoin(ws[1..]);
      assert ws == [w] + ws[1..];
    }
  }

  lemma {:induction false} WordLenOf(w: string, tail: string)
    requires NoSpace(w)
    requires tail == [] || IsSpace(tail[0])
    ensures WordLen(w + tail) == |w|
  {
    if |w| > 0 {
      assert (w + tail)[1..] == w[1..] + tail;
      WordLenOf(w[1..], tail);
    }
  }

  /** The characters at which Python's str.splitlines() breaks a line. */
  predicate IsLineBreak(c: char) {
    c == '\n' || c == '\r' || c == '\U{0B}' || c == '\U{0C}' || c == '\U{1C}' || c == '\U{1D}' ||
    c == '\U{1E}' || c == '\U{85}' || c == '\U{2028}' || c == '\U{2029}'
  }

  function LineLen(s: string): (n: nat)
    ensures n <= |s| && (forall i :: 0 <= i < n ==> !IsLineBreak(s[i])) && (n < |s| ==> IsLineBreak(s[n]))
  {
    if |s| == 0 || IsLineBreak(s[0]) then 0 else 1 + LineLen(s[1..])
  }

  /** Python's str.splitlines(): "\r\n" counts as one break and no empty last line is produced. */
  function SplitLines(s: string): (lines: seq<string>)
    ensures forall i :: 0 <= i < |lines| ==> forall j :: 0 <= j < |lines[i]| ==> !IsLineBreak(lines[i][j])
    decreases |s|
  {
    if s == [] then []
    else
      var n := LineLen(s);
      if n == |s| then [s]
      else
        var skip := if s[n] == '\r' && n + 1 < |s| && s[n + 1] == '\n' then 2 else 1;
        [s[..n]] + SplitLines(s[n + skip..])
  }

  // ---------------------------------------------------------------- integers

  function DigitChar(d: nat): char
    requires d < 10
  {
    ('0' as int + d) as char
  }

  function DigitValue(c: char): nat
    requires IsDigit(c)
  {
    c as int - '0' as int
  }

  /** Python's str() of a non-negative integer. */
  function NatToString(n: nat): (s: string)
    ensures s != [] && forall i :: 0 <= i < |s| ==> IsDigit(s[i])
  {
    if n < 10 then [DigitChar(n)] else NatToString(n / 10) + [DigitChar(n % 10)]
  }

  predicate AllDigits(s: string) { forall i :: 0 <= i < |s| ==> IsDigit(s[i]) }

  /** A digit string as Python's int() reads it: digits, with single underscores between digits. */
  predicate DigitGroups(d: string) {
    && |d| > 0 && IsDigit(d[0]) && IsDigit(d[|d| - 1])
    && (forall i :: 0 <= i < |d| ==> IsDigit(d[i]) || d[i] == '_')
    && (forall i :: 0 <= i < |d| - 1 ==> d[i] == '_' ==> d[i + 1] != '_')
  }

  /** The value of a digit string, underscores ignored. */
  function DigitsValue(d: string): nat
    requires forall i :: 0 <= i < |d| ==> IsDigit(d[i]) || d[i] == '_'
  {
    if d == [] then 0
    else if d[|d| - 1] == '_' then DigitsValue(d[..|d| - 1])
    else DigitsValue(d[..|d| - 1]) * 10 + DigitValue(d[|d| - 1])
  }

  /** Python's int(text) in base 10: surrounding whitespace, an optional sign, digit groups. */
  function ParseInt(text: string): (r: Option<int>)
    ensures r.Some? ==> Strip(text) != []
  {
    var t := Strip(text);
    if |t| > 0 && (t[0] == '+' || t[0] == '-') then
      var d := t[1..];
      var v: int := if DigitGroups(d) then DigitsValue(d) else 0;
      if DigitGroups(d) then Some(if t[0] == '-' then -v else v) else None
    else if DigitGroups(t) then Some(DigitsValue(t))
    else None
  }

  lemma {:induction false} NatToStringValue(n: nat)
    ensures DigitsValue(NatToString(n)) == n
  {
    if n >= 10 {
      NatToStringValue(n / 10);
      var s := NatToString(n);
      assert s[..|s| - 1] == NatToString(n / 10);
    }
  }

  /** int(str(n)) == n. */
  lemma ParseNatToString(n: nat)
    ensures ParseInt(NatToString(n)) == Some(n)
  {
    var s := NatToString(n);
    StripUnchanged(s);
    NatToStringValue(n);
    assert IsDigit(s[0]) && s[0] != '+' && s[0] != '-';
    assert forall i :: 0 <= i < |s| ==> s[i] != '_';
    assert DigitGroups(s);
  }
}

/**
 * Bytes and UTF-8, as Python's bytes.decode('utf-8') reads them: strictly (any
 * ill-formed sequence is an error) or with errors='ignore' (each maximal ill-formed
 * subpart is dropped).
 */
module Utf8 {
  import opened Wrappers

  type byte = x: int | 0 <= x < 256

  /** Allowed range of one continuation byte. */
  datatype Range = Range(lo: byte, hi: byte) {
    predicate Has(b: byte) { lo <= b <= hi }
  }

  /** The continuation bytes a lead byte calls for (Table 3-7 of the Unicode Standard), or None for a byte that cannot start a sequence. */
  function Continuations(lead: byte): (r: Option<seq<Range>>)
    ensures r.Some? ==> |r.value| <= 3
    ensures r.Some? && |r.value| == 0 <==> lead < 0x80
  {
    var tail := Range(0x80, 0xBF);
    if lead < 0x80 then Some([])
    else if 0xC2 <= lead <= 0xDF then Some([tail])
    else if lead == 0xE0 then Some([Range(0xA0, 0xBF), tail])
    else if 0xE1 <= lead <= 0xEC || 0xEE <= lead <= 0xEF then Some([tail, tail])
    else if lead == 0xED then Some([Range(0x80, 0x9F), tail])
    else if lead == 0xF0 then Some([Range(0x90, 0xBF), tail, tail])
    else if 0xF1 <= lead <= 0xF3 then Some([tail, tail, tail])
    else if lead == 0xF4 then Some([Range(0x80, 0x8F), tail, tail])
    else None
  }

  /** How many of the bytes `b` fit the ranges `rs`, position by position, from the start. */
  function Matched(b: seq<byte>, rs: seq<Range>): (k: nat)
    ensures k <= |b| && k <= |rs|
    ensures forall i :: 0 <= i < k ==> rs[i].Has(b[i])
    ensures k < |b| && k < |rs| ==> !rs[k].Has(b[k])
  {
    if |b| == 0 || |rs| == 0 || !rs[0].Has(b[0]) then 0 else 1 + Matched(b[1..], rs[1..])
  }

  /** One decoding step: a character and the bytes it used, or the length of a maximal ill-formed subpart. */
  datatype Step = Decoded(c: char, len: nat) | Malformed(len: nat)

  function CodePoint(b: seq<byte>, n: nat): int
    requires 1 <= n <= 4 && n <= |b|
  {
    var b0, b1, b2, b3: int := b[0], if n > 1 then b[1] else 0, if n > 2 then b[2] else 0, if n > 3 then b[3] else 0;
    if n == 1 then b0
    else if n == 2 then (b0 - 0xC0) * 64 + (b1 - 0x80)
    else if n == 3 then (b0 - 0xE0) * 4096 + (b1 - 0x80) * 64 + (b2 - 0x80)
    else (b0 - 0xF0) * 262144 + (b1 - 0x80) * 4096 + (b2 - 0x80) * 64 + (b3 - 0x80)
  }

  predicate IsScalar(cp: int) { 0 <= cp < 0xD800 || 0xE000 <= cp < 0x11_0000 }

  /** A well-formed sequence denotes a Unicode scalar value. */
  lemma WellFormedIsScalar(b: seq<byte>, rs: seq<Range>)
    requires |b| >= 1 && Continuations(b[0]) == Some(rs)
    requires |rs| < |b| && Matched(b[1..], rs) == |rs|
    ensures IsScalar(CodePoint(b, |rs| + 1))
  {
    var n := |rs| + 1;
    assert forall i :: 1 <= i < n ==> rs[i - 1].Has(b[i]);
    if b[0] < 0x80 {
      assert n == 1;
    } else if b[0] <= 0xDF {
      assert n == 2;
    } else if b[0] <= 0xEF {
      assert n == 3;
    } else {
      assert n == 4;
    }
  }

  function StepAt(b: seq<byte>): (s: Step)
    requires |b| > 0
    ensures 1 <= s.len <= |b|
  {
    match Continuations(b[0])
    case None => Malformed(1)
    case Some(rs) =>
      var k := Matched(b[1..], rs);
      if k == |rs| then
        WellFormedIsScalar(b, rs);
        Decoded(CodePoint(b, k + 1) as char, k + 1)
      else Malformed(k + 1)
  }

  /** bytes.decode('utf-8'): None when any part of the input is ill-formed. */
  function DecodeStrict(b: seq<byte>): Option<string>
    decreases |b|
  {
    if |b| == 0 then Some("")
    else
      match StepAt(b)
      case Malformed(_) => None
      case Decoded(c, n) =>
        match DecodeStrict(b[n..])
        case None => None
        case Some(rest) => Some([c] + rest)
  }

  /** bytes.decode('utf-8', 'ignore'): ill-formed subparts are skipped. */
  function DecodeIgnore(b: seq<byte>): string
    decreases |b|
  {
    if |b| == 0 then ""
    else
      match StepAt(b)
      case Malformed(n) => DecodeIgnore(b[n..])
      case Decoded(c, n) => [c] + DecodeIgnore(b[n..])
  }

  /** Where strict decoding succeeds, ignoring errors gives the same text. */
  lemma {:induction false} IgnoreAgreesWithStrict(b: seq<byte>)
    requires DecodeStrict(b).Some?
    ensures DecodeIgnore(b) == DecodeStrict(b).value
    decreases |b|
  {
    if |b| > 0 {
      IgnoreAgreesWithStrict(b[StepAt(b).len..]);
    }
  }

  // ---------------------------------------------------------------- encoding

  /** The UTF-8 encoding of one character (str.encode('utf-8')). */
  function EncodeChar(c: char): (e: seq<byte>)
    ensures 1 <= |e| <= 4
  {
    var cp := c as int;
    if cp < 0x80 then [cp]
    else if cp < 0x800 then [0xC0 + cp / 64, 0x80 + cp % 64]
    else if cp < 0x1_0000 then [0xE0 + cp / 4096, 0x80 + (cp / 64) % 64, 0x80 + cp % 64]
    else [0xF0 + cp / 262144, 0x80 + (cp / 4096) % 64, 0x80 + (cp / 64) % 64, 0x80 + cp % 64]
  }

  function Encode(s: string): seq<byte> {
    if s == [] then [] else EncodeChar(s[0]) + Encode(s[1..])
  }

  /** Decoding the encoding of a character, followed by anything, yields that character first. */
  lemma StepOfEncoded(c: char, rest: seq<byte>)
    ensures StepAt(EncodeChar(c) + rest) == Decoded(c, |EncodeChar(c)|)
  {
    var cp := c as int;
    if cp < 0x80 {
    } else if cp < 0x800 {
      StepOfTwo(c, rest);
    } else if cp < 0x1_0000 {
      StepOfThree(c, rest);
    } else {
      StepOfFour(c, rest);
    }
  }

  lemma StepOfTwo(c: char, rest: seq<byte>)
    requires 0x80 <= c as int < 0x800
    ensures StepAt(EncodeChar(c) + rest) == Decoded(c, 2)
  {
    var cp := c as int;
    var b := EncodeChar(c) + rest;
    assert b[0] == 0xC0 + cp / 64 && b[1] == 0x80 + cp % 64;
    var rs := Continuations(b[0]).value;
    assert |rs| == 1;
    assert Matched(b[1..], rs) == 1;
    assert CodePoint(b, 2) == cp;
  }

  lemma StepOfThree(c: char, rest: seq<byte>)
    requires 0x800 <= c as int < 0x1_0000
    ensures StepAt(EncodeChar(c) + rest) == Decoded(c, 3)
  {
    var cp := c as int;
    var b := EncodeChar(c) + rest;
    var hi, mid, lo := cp / 4096, (cp / 64) % 64, cp % 64;
    assert cp == hi * 4096 + mid * 64 + lo;
    assert b[0] == 0xE0 + hi && b[1] == 0x80 + mid && b[2] == 0x80 + lo;
    assert hi == 0 ==> mid >= 32;
    assert hi == 13 ==> mid < 32;
    var rs := Continuations(b[0]).value;
    assert |rs| == 2;
    assert rs[0].Has(b[1]) && rs[1].Has(b[2]);
    assert b[1..][..2] == [b[1], b[2]];
    assert Matched(b[1..], rs) == 2;
    assert CodePoint(b, 3) == cp;
  }

  /** The four six-bit-or-fewer groups of a supplementary code point. */
  lemma FourParts(cp: int)
    requires 0x1_0000 <= cp < 0x11_0000
    ensures cp == (cp / 262144) * 262144 + ((cp / 4096) % 64) * 4096 + ((cp / 64) % 64) * 64 + cp % 64
    ensures cp / 262144 <= 4
    ensures cp / 262144 == 0 ==> (cp / 4096) % 64 >= 16
    ensures cp / 262144 == 4 ==> (cp / 4096) % 64 < 16
  {
  }

  lemma StepOfFour(c: char, rest: seq<byte>)
    requires 0x1_0000 <= c as int
    ensures StepAt(EncodeChar(c) + rest) == Decoded(c, 4)
  {
    var cp := c as int;
    FourParts(cp);
    var b := EncodeChar(c) + rest;
    var top, hi, mid, lo := cp / 262144, (cp / 4096) % 64, (cp / 64) % 64, cp % 64;
    assert b[0] == 0xF0 + top && b[1] == 0x80 + hi && b[2] == 0x80 + mid && b[3] == 0x80 + lo;
    var rs := Continuations(b[0]).value;
    assert |rs| == 3 && rs[0].Has(b[1]) && rs[1].Has(b[2]) && rs[2].Has(b[3]);
    assert Matched(b[1..], rs) == 3;
    assert CodePoint(b, 4) == cp;
  }

  /** Strict decoding inverts encoding. */
  lemma {:induction false} DecodeEncode(s: string)
    ensures DecodeStrict(Encode(s)) == Some(s)
  {
    if s != [] {
      var e := EncodeChar(s[0]);
      var b := Encode(s);
      StepOfEncoded(s[0], Encode(s[1..]));
      assert b[|e|..] == Encode(s[1..]);
      DecodeEncode(s[1..]);
      assert [s[0]] + s[1..] == s;
    }
  }

  predicate IsAscii(s: string) { forall i :: 0 <= i < |s| ==> s[i] < '\U{80}' }

  /** An ASCII string is encoded one byte per character. */
  lemma {:induction false} EncodeAscii(s: string)
    requires IsAscii(s)
    ensures |Encode(s)| == |s| && forall i :: 0 <= i < |s| ==> Encode(s)[i] == s[i] as int
  {
    if s != [] {
      EncodeAscii(s[1..]);
    }
  }
}

/**
 * Base64 as the browser's `btoa` and `atob` compute it: the alphabet of
 * section 4 of RFC 4648 with `=` padding on encode, and the WHATWG
 * "forgiving-base64 decode" on decode (ASCII whitespace removed, up to two
 * trailing `=` dropped when the length is a multiple of four, a final quantum
 * of two or three characters accepted, its left-over low bits discarded).
 */
module Base64 {
  import opened Wrappers

  type byte = bv8

  predicate IsBase64Char(c: char) {
    'A' <= c <= 'Z' || 'a' <= c <= 'z' || '0' <= c <= '9' || c == '+' || c == '/'
  }

  predicate IsBase64String(s: string) {
    forall i :: 0 <= i < |s| ==> IsBase64Char(s[i])
  }

  /** The character of a 6-bit value in the RFC 4648 section 4 table. */
  function CharOf(v: byte): (c: char)
    requires v < 64
    ensures IsBase64Char(c)
  {
    if v < 26 then ('A' as int + v as int) as char
    else if v < 52 then ('a' as int + (v as int - 26)) as char
    else if v < 62 then ('0' as int + (v as int - 52)) as char
    else if v == 62 then '+'
    else '/'
  }

  /** The 6-bit value of an alphabet character; the inverse of `CharOf`. */
  function ValueOf(c: char): (v: byte)
    requires IsBase64Char(c)
    ensures v < 64
  {
    if 'A' <= c <= 'Z' then ((c as int) - ('A' as int)) as byte
    else if 'a' <= c <= 'z' then ((c as int) - ('a' as int) + 26) as byte
    else if '0' <= c <= '9' then ((c as int) - ('0' as int) + 52) as byte
    else if c == '+' then 62
    else 63
  }

  lemma ValueOfCharOf(v: byte)
    requires v < 64
    ensures ValueOf(CharOf(v)) == v
  {
    var n := v as int;
    if v < 26 {
      assert CharOf(v) as int == 65 + n;
    } else if v < 52 {
      assert CharOf(v) as int == 97 + n - 26;
    } else if v < 62 {
      assert CharOf(v) as int == 48 + n - 52;
    }
  }

  // Encoding

  function EncodeTriple(b0: byte, b1: byte, b2: byte): (r: string)
    ensures |r| == 4 && IsBase64String(r)
  {
    [CharOf(b0 >> 2), CharOf(((b0 & 0x03) << 4) | (b1 >> 4)),
     CharOf(((b1 & 0x0F) << 2) | (b2 >> 6)), CharOf(b2 & 0x3F)]
  }

  function EncodePair(b0: byte, b1: byte): (r: string)
    ensures |r| == 3 && IsBase64String(r)
  {
    [CharOf(b0 >> 2), CharOf(((b0 & 0x03) << 4) | (b1 >> 4)), CharOf((b1 & 0x0F) << 2)]
  }

  function EncodeSingle(b0: byte): (r: string)
    ensures |r| == 2 && IsBase64String(r)
  {
    [CharOf(b0 >> 2), CharOf((b0 & 0x03) << 4)]
  }

  /** The encoding without its `=` padding. */
  function EncodeUnpadded(b: seq<byte>): (r: string)
    ensures IsBase64String(r)
    ensures |r| == 4 * (|b| / 3) + (if |b| % 3 == 0 then 0 else |b| % 3 + 1)
    decreases |b|
  {
    if |b| >= 3 then EncodeTriple(b[0], b[1], b[2]) + EncodeUnpadded(b[3..])
    else if |b| == 2 then EncodePair(b[0], b[1])
    else if |b| == 1 then EncodeSingle(b[0])
    else []
  }

  function Padding(n: nat): string {
    if n % 3 == 1 then "==" else if n % 3 == 2 then "=" else ""
  }

  /** `btoa` of a byte string. */
  function Btoa(b: seq<byte>): (r: string)
    ensures |r| % 4 == 0 && |r| == 4 * ((|b| + 2) / 3)
  {
    EncodeUnpadded(b) + Padding(|b|)
  }

  // Decoding

  predicate IsAsciiWhitespace(c: char) {
    c == '\t' || c == '\n' || c == '\U{000C}' || c == '\r' || c == ' '
  }

  function RemoveAsciiWhitespace(s: string): (r: string)
    ensures |r| <= |s|
    ensures (forall i :: 0 <= i < |s| ==> !IsAsciiWhitespace(s[i])) ==> r == s
  {
    if s == [] then []
    else if IsAsciiWhitespace(s[0]) then RemoveAsciiWhitespace(s[1..])
    else [s[0]] + RemoveAsciiWhitespace(s[1..])
  }

  /** Up to two trailing `=` are dropped, when the length is a multiple of four. */
  function StripPadding(s: string): string {
    if |s| % 4 == 0 && |s| >= 2 && s[|s| - 1] == '=' && s[|s| - 2] == '=' then s[..|s| - 2]
    else if |s| % 4 == 0 && |s| >= 1 && s[|s| - 1] == '=' then s[..|s| - 1]
    else s
  }

  function DecodeQuad(c0: char, c1: char, c2: char, c3: char): seq<byte>
    requires IsBase64Char(c0) && IsBase64Char(c1) && IsBase64Char(c2) && IsBase64Char(c3)
  {
    var v0, v1, v2, v3 := ValueOf(c0), ValueOf(c1), ValueOf(c2), ValueOf(c3);
    [(v0 << 2) | (v1 >> 4), ((v1 & 0x0F) << 4) | (v2 >> 2), ((v2 & 0x03) << 6) | v3]
  }

  function DecodeTrio(c0: char, c1: char, c2: char): seq<byte>
    requires IsBase64Char(c0) && IsBase64Char(c1) && IsBase64Char(c2)
  {
    var v0, v1, v2 := ValueOf(c0), ValueOf(c1), ValueOf(c2);
    [(v0 << 2) | (v1 >> 4), ((v1 & 0x0F) << 4) | (v2 >> 2)]
  }

  function DecodeDuo(c0: char, c1: char): seq<byte>
    requires IsBase64Char(c0) && IsBase64Char(c1)
  {
    var v0, v1 := ValueOf(c0), ValueOf(c1);
    [(v0 << 2) | (v1 >> 4)]
  }

  /** Decoding of padding-free text; a final quantum of 2 or 3 characters gives 1 or 2 bytes. */
  function DecodeUnpadded(d: string): (r: seq<byte>)
    requires IsBase64String(d) && |d| % 4 != 1
    ensures |r| == |d| * 3 / 4
    decreases |d|
  {
    if |d| >= 4 then DecodeQuad(d[0], d[1], d[2], d[3]) + DecodeUnpadded(d[4..])
    else if |d| == 3 then DecodeTrio(d[0], d[1], d[2])
    else if |d| == 2 then DecodeDuo(d[0], d[1])
    else []
  }

  /** `atob`: `None` where the browser throws InvalidCharacterError. */
  function Atob(s: string): (r: Option<seq<byte>>)
    ensures r.Some? ==> |r.value| <= |s| * 3 / 4
    ensures |s| % 4 == 0 && IsBase64String(s) ==> r == Some(DecodeUnpadded(s)) && |r.value| == |s| / 4 * 3
  {
    var d := StripPadding(RemoveAsciiWhitespace(s));
    if |d| % 4 == 1 || !IsBase64String(d) then None
    else Some(DecodeUnpadded(d))
  }

  // Round trip

  lemma TripleRoundTrip(b0: byte, b1: byte, b2: byte)
    ensures var e := EncodeTriple(b0, b1, b2); DecodeQuad(e[0], e[1], e[2], e[3]) == [b0, b1, b2]
  {
    ValueOfCharOf(b0 >> 2);
    ValueOfCharOf(((b0 & 0x03) << 4) | (b1 >> 4));
    ValueOfCharOf(((b1 & 0x0F) << 2) | (b2 >> 6));
    ValueOfCharOf(b2 & 0x3F);
  }

  lemma PairRoundTrip(b0: byte, b1: byte)
    ensures var e := EncodePair(b0, b1); DecodeTrio(e[0], e[1], e[2]) == [b0, b1]
  {
    ValueOfCharOf(b0 >> 2);
    ValueOfCharOf(((b0 & 0x03) << 4) | (b1 >> 4));
    ValueOfCharOf((b1 & 0x0F) << 2);
  }

  lemma SingleRoundTrip(b0: byte)
    ensures var e := EncodeSingle(b0); DecodeDuo(e[0], e[1]) == [b0]
  {
    ValueOfCharOf(b0 >> 2);
    ValueOfCharOf((b0 & 0x03) << 4);
  }

  lemma DecodeUnpaddedAppend(t: string, rest: string)
    requires |t| == 4 && IsBase64String(t) && IsBase64String(rest) && |rest| % 4 != 1
    ensures IsBase64String(t + rest) && |t + rest| % 4 != 1
    ensures DecodeUnpadded(t + rest) == DecodeQuad(t[0], t[1], t[2], t[3]) + DecodeUnpadded(rest)
  {
    var e := t + rest;
    assert e[0] == t[0] && e[1] == t[1] && e[2] == t[2] && e[3] == t[3];
    assert e[4..] == rest;
  }

  lemma UnpaddedLength(b: seq<byte>)
    ensures |EncodeUnpadded(b)| % 4 != 1
  {
    var q, m := |b| / 3, |b| % 3;
    assert |EncodeUnpadded(b)| == 4 * q + (if m == 0 then 0 else m + 1);
  }

  lemma {:induction false} UnpaddedRoundTrip(b: seq<byte>)
    ensures |EncodeUnpadded(b)| % 4 != 1
    ensures DecodeUnpadded(EncodeUnpadded(b)) == b
    decreases |b|
  {
    UnpaddedLength(b);
    if |b| >= 3 {
      var t := EncodeTriple(b[0], b[1], b[2]);
      var rest := EncodeUnpadded(b[3..]);
      UnpaddedRoundTrip(b[3..]);
      TripleRoundTrip(b[0], b[1], b[2]);
      DecodeUnpaddedAppend(t, rest);
      assert b == [b[0], b[1], b[2]] + b[3..];
    } else if |b| == 2 {
      PairRoundTrip(b[0], b[1]);
      assert b == [b[0], b[1]];
    } else if |b| == 1 {
      SingleRoundTrip(b[0]);
      assert b == [b[0]];
    }
  }

  lemma StripPaddingOfBtoa(b: seq<byte>)
    ensures StripPadding(Btoa(b)) == EncodeUnpadded(b)
  {
    var e := EncodeUnpadded(b);
    var s := Btoa(b);
    assert s == e + Padding(|b|);
    if |b| % 3 == 1 {
      assert s[..|s| - 2] == e;
    } else if |b| % 3 == 2 {
      assert s[|s| - 2] == e[|e| - 1] && IsBase64Char(e[|e| - 1]);
      assert s[..|s| - 1] == e;
    } else {
      assert s == e;
      assert |s| >= 1 ==> IsBase64Char(s[|s| - 1]);
    }
  }

  /** `atob` of a text free of whitespace whose unpadded form is valid. */
  lemma AtobClean(s: string, d: string)
    requires forall i :: 0 <= i < |s| ==> !IsAsciiWhitespace(s[i])
    requires StripPadding(s) == d && IsBase64String(d) && |d| % 4 != 1
    ensures Atob(s) == Some(DecodeUnpadded(d))
  {
    assert RemoveAsciiWhitespace(s) == s;
  }

  lemma BtoaHasNoWhitespace(b: seq<byte>)
    ensures forall i :: 0 <= i < |Btoa(b)| ==> !IsAsciiWhitespace(Btoa(b)[i])
  {
    var s, e := Btoa(b), EncodeUnpadded(b);
    forall i | 0 <= i < |s| ensures !IsAsciiWhitespace(s[i]) {
      if i < |e| { assert s[i] == e[i]; } else { assert s[i] == '='; }
    }
  }

  /** `atob(btoa(b))` gives back `b` for every byte string. */
  lemma AtobBtoa(b: seq<byte>)
    ensures Atob(Btoa(b)) == Some(b)
  {
    BtoaHasNoWhitespace(b);
    StripPaddingOfBtoa(b);
    UnpaddedRoundTrip(b);
    AtobClean(Btoa(b), EncodeUnpadded(b));
  }

  // A final quantum of two characters, padded

  lemma DuoOfTriplePrefix(b3: byte, b4: byte)
    ensures DecodeDuo(CharOf(b3 >> 2), CharOf(((b3 & 0x03) << 4) | (b4 >> 4))) == [b3]
  {
    ValueOfCharOf(b3 >> 2);
    ValueOfCharOf(((b3 & 0x03) << 4) | (b4 >> 4));
  }

  lemma QuadOfTriplePrefix(b3: byte, b4: byte)
    ensures DecodeQuad(CharOf(b3 >> 2), CharOf(((b3 & 0x03) << 4) | (b4 >> 4)), 'A', 'A') == [b3, b4 & 0xF0, 0]
  {
    ValueOfCharOf(b3 >> 2);
    ValueOfCharOf(((b3 & 0x03) << 4) | (b4 >> 4));
    ValueOfCharOf(0);
  }

  /** Four characters, then two, then `==`: the `==` is stripped and the two characters give one byte. */
  lemma AtobPaddedQuantum(t: string, c4: char, c5: char)
    requires |t| == 4 && IsBase64String(t) && IsBase64Char(c4) && IsBase64Char(c5)
    ensures Atob(t + [c4, c5] + "==") == Some(DecodeQuad(t[0], t[1], t[2], t[3]) + DecodeDuo(c4, c5))
  {
    var s := t + [c4, c5] + "==";
    var d := t + [c4, c5];
    forall i | 0 <= i < |s| ensures !IsAsciiWhitespace(s[i]) {
      if i < 4 { assert s[i] == t[i]; }
    }
    assert s[..6] == d;
    DecodeUnpaddedAppend(t, [c4, c5]);
    AtobClean(s, d);
  }

  /** Four characters, then two, then `AA`: eight characters that decode to six bytes. */
  lemma AtobZeroPaddedQuantum(t: string, c4: char, c5: char)
    requires |t| == 4 && IsBase64String(t) && IsBase64Char(c4) && IsBase64Char(c5)
    ensures Atob(t + [c4, c5] + "AA") == Some(DecodeQuad(t[0], t[1], t[2], t[3]) + DecodeQuad(c4, c5, 'A', 'A'))
  {
    var rest := [c4, c5, 'A', 'A'];
    var s := t + rest;
    assert t + [c4, c5] + "AA" == s;
    forall i | 0 <= i < |s| ensures !IsAsciiWhitespace(s[i]) && IsBase64Char(s[i]) {
      if i < 4 { assert s[i] == t[i]; } else { assert s[i] == rest[i - 4]; }
    }
    assert s[7] == 'A';
    assert StripPadding(s) == s;
    assert IsBase64String(rest) by {
      forall i | 0 <= i < 4 ensures IsBase64Char(rest[i]) { assert rest[i] == s[i + 4]; }
    }
    DecodeUnpaddedAppend(t, rest);
    DecodeUnpaddedQuad(rest);
    AtobClean(s, s);
  }

  /** Four characters of base64 text decode as one quantum. */
  lemma DecodeUnpaddedQuad(q: string)
    requires |q| == 4 && IsBase64String(q)
    ensures DecodeUnpadded(q) == DecodeQuad(q[0], q[1], q[2], q[3])
  {
    assert q[4..] == [];
  }
}

/**
 * `encodeURIComponent` and `decodeURIComponent`: section 19.2.6 of ECMA-262 over
 * UTF-8 (section 3 of RFC 3629) and percent-escapes (section 2.1 of RFC 3986).
 */
module PercentEncoding {
  import opened Wrappers
  import opened Utf16
  import opened Hex
  import opened Texts

  type Byte = b: int | 0 <= b < 0x100

  const PERCENT: Unit := 0x25

  predicate Letter(u: Unit) {
    0x41 <= u <= 0x5A || 0x61 <= u <= 0x7A
  }

  /** Left as it is: letters, digits and - _ . ! ~ * ' ( ). */
  predicate Unreserved(u: Unit) {
    || Letter(u) || 0x30 <= u <= 0x39
    || u == 0x2D || u == 0x5F || u == 0x2E || u == 0x21 || u == 0x7E
    || u == 0x2A || u == 0x27 || u == 0x28 || u == 0x29
  }

  // --- Code points and UTF-8 ---------------------------------------------------------

  /** A code point that is no surrogate. */
  predicate Scalar(v: int) {
    0 <= v < 0xD800 || 0xE000 <= v <= 0x10FFFF
  }

  /** The continuation byte with the low six bits of `v`. */
  function Six(v: nat): (b: Byte)
    ensures Continuation(b) && v == v / 0x40 * 0x40 + (b - 0x80)
  {
    0x80 + v % 0x40
  }

  function Utf8(v: int): seq<Byte>
    requires Scalar(v)
  {
    if v < 0x80 then [v]
    else if v < 0x800 then [0xC0 + v / 0x40, Six(v)]
    else if v < 0x10000 then [0xE0 + v / 0x40 / 0x40, Six(v / 0x40), Six(v)]
    else [0xF0 + v / 0x40 / 0x40 / 0x40, Six(v / 0x40 / 0x40), Six(v / 0x40), Six(v)]
  }

  /** How many bytes a first byte announces; 0 for a byte that cannot come first. */
  function Announced(b: Byte): nat {
    if b < 0x80 then 1
    else if 0xC0 <= b < 0xE0 then 2
    else if 0xE0 <= b < 0xF0 then 3
    else if 0xF0 <= b < 0xF8 then 4
    else 0
  }

  predicate Continuation(b: Byte) {
    0x80 <= b < 0xC0
  }

  /** The payload bits of `bytes`, six to a continuation byte. */
  function Payload(first: int, rest: seq<Byte>): int {
    if rest == [] then first
    else Payload(first, rest[..|rest| - 1]) * 0x40 + (rest[|rest| - 1] as int - 0x80)
  }

  /** The least code point that needs `n` bytes. */
  function Least(n: nat): int {
    match n
    case 2 => 0x80
    case 3 => 0x800
    case 4 => 0x10000
    case _ => 0
  }

  /** The first byte without the bits that announce the length. */
  function FirstPayload(b: Byte): int {
    match Announced(b)
    case 2 => b - 0xC0
    case 3 => b - 0xE0
    case 4 => b - 0xF0
    case _ => b
  }

  /** The code point that `bytes` encode: continuation bytes only, shortest form, no surrogate, within range. */
  function CodePoint(bytes: seq<Byte>): (r: Option<int>)
    ensures r.Some? ==> Scalar(r.value) && bytes != []
  {
    if bytes == [] || Announced(bytes[0]) != |bytes| then None
    else if exists i :: 1 <= i < |bytes| && !Continuation(bytes[i]) then None
    else
      var v := Payload(FirstPayload(bytes[0]), bytes[1..]);
      if Scalar(v) && Least(|bytes|) <= v then Some(v) else None
  }

  lemma PayloadOfTwo(first: int, a: Byte)
    ensures Payload(first, [a]) == first * 0x40 + (a as int - 0x80)
  {
    assert [a][..0] == [];
  }

  lemma PayloadOfThree(first: int, a: Byte, b: Byte)
    ensures Payload(first, [a, b]) == (first * 0x40 + (a as int - 0x80)) * 0x40 + (b as int - 0x80)
  {
    PayloadOfTwo(first, a);
    assert [a, b][..1] == [a];
  }

  lemma PayloadOfFour(first: int, a: Byte, b: Byte, c: Byte)
    ensures Payload(first, [a, b, c]) == ((first * 0x40 + (a as int - 0x80)) * 0x40 + (b as int - 0x80)) * 0x40 + (c as int - 0x80)
  {
    PayloadOfThree(first, a, b);
    assert [a, b, c][..2] == [a, b];
  }

  /** A byte sequence decodes to `v` exactly when it is the UTF-8 form of `v`. */
  lemma Utf8Exact(v: int, bytes: seq<Byte>)
    requires Scalar(v)
    ensures CodePoint(bytes) == Some(v) <==> bytes == Utf8(v)
  {
    if bytes == Utf8(v) {
      Utf8Decodes(v);
    } else if CodePoint(bytes) == Some(v) {
      ShortestOnly(v, bytes);
    }
  }

  lemma Utf8Decodes(v: int)
    requires Scalar(v)
    ensures CodePoint(Utf8(v)) == Some(v)
  {
    hide Payload;
    var bytes := Utf8(v);
    PayloadOf(FirstPayload(bytes[0]), bytes);
  }

  /** The payload of up to four bytes, written out. */
  lemma PayloadOf(first: int, bytes: seq<Byte>)
    requires 1 <= |bytes| <= 4
    ensures Payload(first, bytes[1..]) ==
            match |bytes|
            case 1 => first
            case 2 => first * 0x40 + (bytes[1] as int - 0x80)
            case 3 => (first * 0x40 + (bytes[1] as int - 0x80)) * 0x40 + (bytes[2] as int - 0x80)
            case _ => ((first * 0x40 + (bytes[1] as int - 0x80)) * 0x40 + (bytes[2] as int - 0x80)) * 0x40
                      + (bytes[3] as int - 0x80)
  {
    match |bytes| {
      case 1 => assert bytes[1..] == [];
      case 2 =>
        assert bytes[1..] == [bytes[1]];
        PayloadOfTwo(first, bytes[1]);
      case 3 =>
        assert bytes[1..] == [bytes[1], bytes[2]];
        PayloadOfThree(first, bytes[1], bytes[2]);
      case _ =>
        assert bytes[1..] == [bytes[1], bytes[2], bytes[3]];
        PayloadOfFour(first, bytes[1], bytes[2], bytes[3]);
    }
  }

  /** Dividing takes the last six bits off. */
  lemma SixBack(q: nat, b: Byte)
    requires Continuation(b)
    ensures (q * 0x40 + (b as int - 0x80)) / 0x40 == q
    ensures Six(q * 0x40 + (b as int - 0x80)) == b
  {
  }

  lemma ShortestOnly(v: int, bytes: seq<Byte>)
    requires Scalar(v) && CodePoint(bytes) == Some(v)
    ensures bytes == Utf8(v)
  {
    PayloadOf(FirstPayload(bytes[0]), bytes);
    hide Payload;
    assert forall i :: 1 <= i < |bytes| ==> Continuation(bytes[i]);
    var first := FirstPayload(bytes[0]);
    match |bytes| {
      case 2 => SixBack(first, bytes[1]);
      case 3 =>
        SixBack(first, bytes[1]);
        SixBack(first * 0x40 + (bytes[1] as int - 0x80), bytes[2]);
      case 4 =>
        SixBack(first, bytes[1]);
        SixBack(first * 0x40 + (bytes[1] as int - 0x80), bytes[2]);
        SixBack((first * 0x40 + (bytes[1] as int - 0x80)) * 0x40 + (bytes[2] as int - 0x80), bytes[3]);
      case _ =>
    }
  }

  function Units(v: int): (s: Text)
    requires Scalar(v)
  {
    if v < 0x10000 then [v] else [0xD800 + (v - 0x10000) / 0x400, 0xDC00 + (v - 0x10000) % 0x400]
  }

  /** The code point of a surrogate pair. */
  function PairValue(high: int, low: int): int {
    0x10000 + (high - 0xD800) * 0x400 + (low - 0xDC00)
  }

  /** The code point at the front of well-formed text. */
  function FrontScalar(s: Text): (v: int)
    requires s != [] && (PairAhead(s) || !Surrogate(s[0]))
    ensures Scalar(v) && Units(v) <= s
  {
    if PairAhead(s) then
      var v := PairValue(s[0], s[1]);
      assert Units(v) == s[..2];
      v
    else s[0]
  }

  // --- Percent-escapes -------------------------------------------------------------------

  function EscapeByte(b: Byte): Text {
    [PERCENT, HexDigit(b / 16, Upper), HexDigit(b % 16, Upper)]
  }

  function EscapeAll(bytes: seq<Byte>): Text {
    if bytes == [] then [] else EscapeByte(bytes[0]) + EscapeAll(bytes[1..])
  }

  /** The byte an escape at the front of `t` stands for. */
  function Octet(t: Text): Option<Byte> {
    if |t| < 3 || t[0] != PERCENT then None
    else
      match (HexValue(t[1]), HexValue(t[2]))
      case (Some(high), Some(low)) => Some(OctetOf(high, low))
      case _ => None
  }

  function OctetOf(high: int, low: int): Byte {
    if 0 <= high < 16 && 0 <= low < 16 then high * 16 + low else 0
  }

  /** The first `n` escapes of `t`. */
  function Octets(t: Text, n: nat): (bytes: Option<seq<Byte>>)
    ensures bytes.Some? ==> |bytes.value| == n && 3 * n <= |t|
  {
    if n == 0 then Some([])
    else
      match Octet(t)
      case None => None
      case Some(b) =>
        match Octets(t[3..], n - 1)
        case None => None
        case Some(rest) => Some([b] + rest)
  }

  // --- The two functions -------------------------------------------------------------------

  function Prepend(front: Text, rest: Option<Text>): Option<Text> {
    match rest
    case None => None
    case Some(text) => Some(front + text)
  }

  /** `encodeURIComponent`; `None` is its URIError. */
  function EncodeComponent(s: Text): Option<Text> {
    if s == [] then Some([])
    else if Unreserved(s[0]) then Prepend([s[0]], EncodeComponent(s[1..]))
    else if PairAhead(s) then Prepend(EscapeAll(Utf8(FrontScalar(s))), EncodeComponent(s[2..]))
    else if Surrogate(s[0]) then None
    else Prepend(EscapeAll(Utf8(FrontScalar(s))), EncodeComponent(s[1..]))
  }

  /** The bytes that the escapes at the front of `t` stand for, if they make a code point. */
  function Escaped(t: Text): (r: Option<seq<Byte>>)
    ensures r.Some? ==> CodePoint(r.value).Some? && 3 * |r.value| <= |t|
  {
    match Octet(t)
    case None => None
    case Some(b) =>
      match Octets(t, Announced(b))
      case None => None
      case Some(bytes) => if CodePoint(bytes).Some? then Some(bytes) else None
  }

  /** `decodeURIComponent`; `None` is its URIError. */
  function DecodeComponent(t: Text): Option<Text>
    decreases |t|
  {
    if t == [] then Some([])
    else if t[0] != PERCENT then Prepend([t[0]], DecodeComponent(t[1..]))
    else
      match Escaped(t)
      case None => None
      case Some(bytes) => Prepend(Units(CodePoint(bytes).value), DecodeComponent(t[3 * |bytes|..]))
  }

  // --- Decoding undoes encoding -----------------------------------------------------------------

  lemma OctetReads(b: Byte, tail: Text)
    ensures Octet(EscapeByte(b) + tail) == Some(b)
    ensures (EscapeByte(b) + tail)[3..] == tail
  {
    var t := EscapeByte(b) + tail;
    assert t[0] == PERCENT && t[1] == HexDigit(b / 16, Upper) && t[2] == HexDigit(b % 16, Upper);
  }

  lemma {:induction false} OctetsRead(bytes: seq<Byte>, tail: Text)
    ensures |EscapeAll(bytes)| == 3 * |bytes|
    ensures Octets(EscapeAll(bytes) + tail, |bytes|) == Some(bytes)
  {
    if bytes == [] {
    } else {
      var rest := EscapeAll(bytes[1..]) + tail;
      assert EscapeAll(bytes) + tail == EscapeByte(bytes[0]) + rest;
      OctetReads(bytes[0], rest);
      OctetsRead(bytes[1..], tail);
      assert [bytes[0]] + bytes[1..] == bytes;
      assert Octets(EscapeByte(bytes[0]) + rest, |bytes|) == Some([bytes[0]] + bytes[1..]);
    }
  }

  lemma EscapedReads(v: int, tail: Text)
    requires Scalar(v)
    ensures Escaped(EscapeAll(Utf8(v)) + tail) == Some(Utf8(v))
  {
    var bytes := Utf8(v);
    Utf8Decodes(v);
    OctetsRead(bytes, tail);
    OctetReads(bytes[0], EscapeAll(bytes[1..]) + tail);
    assert EscapeAll(bytes) + tail == EscapeByte(bytes[0]) + (EscapeAll(bytes[1..]) + tail);
    assert Announced(bytes[0]) == |bytes|;
  }

  lemma DecodeScalar(v: int, tail: Text)
    requires Scalar(v)
    ensures DecodeComponent(EscapeAll(Utf8(v)) + tail) == Prepend(Units(v), DecodeComponent(tail))
  {
    hide Escaped, Utf8, Units;
    EscapedReads(v, tail);
    Utf8Decodes(v);
    EscapesStartWithPercent(v);
    OctetsRead(Utf8(v), tail);
    assert (EscapeAll(Utf8(v)) + tail)[3 * |Utf8(v)|..] == tail;
  }

  lemma DecodePlain(u: Unit, tail: Text)
    requires u != PERCENT
    ensures DecodeComponent([u] + tail) == Prepend([u], DecodeComponent(tail))
  {
    assert ([u] + tail)[1..] == tail;
  }

  /** `encodeURIComponent` throws exactly on a lone surrogate. */
  lemma {:induction false} EncodesWellFormed(s: Text)
    ensures EncodeComponent(s).Some? <==> WellFormed(s)
    decreases |s|
  {
    if s != [] {
      EncodesWellFormed(s[1..]);
      if PairAhead(s) { EncodesWellFormed(s[2..]); }
    }
  }

  /** `decodeURIComponent` undoes `encodeURIComponent`. */
  lemma {:induction false} ComponentRoundTrip(s: Text)
    requires EncodeComponent(s).Some?
    ensures DecodeComponent(EncodeComponent(s).value) == Some(s)
    decreases |s|
  {
    hide DecodeComponent, Utf8, EscapeAll, Units;
    if s == [] {
      DecodeNothing();
    } else if Unreserved(s[0]) {
      ComponentRoundTrip(s[1..]);
      DecodePlain(s[0], EncodeComponent(s[1..]).value);
      assert s == [s[0]] + s[1..];
    } else {
      var v := FrontScalar(s);
      UnitsLength(s);
      ComponentRoundTrip(s[|Units(v)|..]);
      DecodeScalar(v, EncodeComponent(s[|Units(v)|..]).value);
      assert s == Units(v) + s[|Units(v)|..];
    }
  }

  lemma DecodeNothing()
    ensures DecodeComponent([]) == Some([])
  {
  }

  lemma UnitsLength(s: Text)
    requires s != [] && (PairAhead(s) || !Surrogate(s[0]))
    ensures |Units(FrontScalar(s))| == if PairAhead(s) then 2 else 1
  {
  }

  // --- What encoded text is made of ---------------------------------------------------------------

  predicate Safe(u: Unit) {
    Unreserved(u) || u == PERCENT
  }

  lemma {:induction false} EscapesAreSafe(bytes: seq<Byte>)
    ensures forall u :: u in EscapeAll(bytes) ==> Safe(u)
  {
    if bytes != [] {
      EscapesAreSafe(bytes[1..]);
    }
  }

  /** Encoded text holds unreserved characters and percent signs only. */
  lemma {:induction false} EncodedIsSafe(s: Text)
    ensures EncodeComponent(s).Some? ==> forall u :: u in EncodeComponent(s).value ==> Safe(u)
    decreases |s|
  {
    if s == [] {
    } else if Unreserved(s[0]) {
      EncodedIsSafe(s[1..]);
    } else if PairAhead(s) || !Surrogate(s[0]) {
      EscapesAreSafe(Utf8(FrontScalar(s)));
      EncodedIsSafe(s[if PairAhead(s) then 2 else 1..]);
    }
  }

  lemma EscapesStartWithPercent(v: int)
    requires Scalar(v)
    ensures EscapeAll(Utf8(v)) != [] && EscapeAll(Utf8(v))[0] == PERCENT
  {
  }

  /** Text is its own encoding exactly when all of it is unreserved. */
  lemma {:induction false} PlainTextStays(s: Text)
    ensures EncodeComponent(s) == Some(s) <==> forall i :: 0 <= i < |s| ==> Unreserved(s[i])
    decreases |s|
  {
    if s == [] {
    } else if Unreserved(s[0]) {
      PlainTextStays(s[1..]);
      assert s == [s[0]] + s[1..];
      assert forall i :: 0 < i < |s| ==> s[i] == s[1..][i - 1];
    } else if PairAhead(s) || !Surrogate(s[0]) {
      hide EscapeAll, Utf8;
      EscapesStartWithPercent(FrontScalar(s));
      if s[0] == PERCENT {
        PercentGrows(s);
      }
    }
  }

  /** An escaped percent sign reads %25, so no text that starts with one stays. */
  lemma PercentGrows(s: Text)
    requires s != [] && s[0] == PERCENT
    ensures EncodeComponent(s) != Some(s)
  {
    EncodedIsLonger(s[1..]);
    OctetsRead(Utf8(FrontScalar(s)), []);
  }

  lemma {:induction false} EncodedIsLonger(s: Text)
    ensures EncodeComponent(s).Some? ==> |EncodeComponent(s).value| >= |s|
    decreases |s|
  {
    if s == [] {
    } else if Unreserved(s[0]) {
      EncodedIsLonger(s[1..]);
    } else if PairAhead(s) || !Surrogate(s[0]) {
      var bytes := Utf8(FrontScalar(s));
      OctetsRead(bytes, []);
      EncodedIsLonger(s[if PairAhead(s) then 2 else 1..]);
    }
  }

  // --- Canonical text ----------------------------------------------------------------------------

  predicate UpperCase(t: Text) {
    forall i :: 0 <= i < |t| ==> !(0x61 <= t[i] <= 0x66)
  }

  /** Unreserved characters, and upper-case escapes of code points that need escaping. */
  predicate CanonicalPart(t: Text)
    decreases |t|
  {
    if t == [] then true
    else if t[0] != PERCENT then Unreserved(t[0]) && CanonicalPart(t[1..])
    else
      match Escaped(t)
      case None => false
      case Some(bytes) =>
        && UpperCase(t[..3 * |bytes|])
        && !(|bytes| == 1 && Unreserved(bytes[0]))
        && CanonicalPart(t[3 * |bytes|..])
  }

  lemma HexBack(u: Unit)
    requires HexValue(u).Some?
    ensures u == HexDigit(HexValue(u).value, Upper) <==> !(0x61 <= u <= 0x66)
  {
  }

  /** Escapes are written as the encoder writes them exactly when they are in upper case. */
  lemma {:induction false} UpperCaseEscapes(t: Text, n: nat)
    requires Octets(t, n).Some?
    ensures t[..3 * n] == EscapeAll(Octets(t, n).value) <==> UpperCase(t[..3 * n])
  {
    if n == 0 {
    } else {
      UpperCaseEscapes(t[3..], n - 1);
      HexBack(t[1]);
      HexBack(t[2]);
      var b := Octet(t).value;
      assert b / 16 == HexValue(t[1]).value && b % 16 == HexValue(t[2]).value;
      assert EscapeByte(b) == t[..3] <==> UpperCase(t[..3]);
      SplitUpperCase(t[..3 * n], 3);
      assert t[..3 * n][..3] == t[..3] && t[..3 * n][3..] == t[3..][..3 * (n - 1)];
      assert Octets(t, n).value[1..] == Octets(t[3..], n - 1).value;
      assert t[..3 * n] == t[..3] + t[3..][..3 * (n - 1)];
      SameSplit(t[..3], EscapeByte(b), t[3..][..3 * (n - 1)], EscapeAll(Octets(t[3..], n - 1).value));
    }
  }

  lemma SplitUpperCase(t: Text, k: nat)
    requires k <= |t|
    ensures UpperCase(t) <==> UpperCase(t[..k]) && UpperCase(t[k..])
  {
    assert forall i :: k <= i < |t| ==> t[i] == t[k..][i - k];
  }

  lemma SameSplit(a: Text, b: Text, c: Text, d: Text)
    requires |a| == |b|
    ensures a + c == b + d <==> a == b && c == d
  {
    if a + c == b + d {
      assert a == (a + c)[..|a|] && c == (a + c)[|a|..];
      assert b == (b + d)[..|b|] && d == (b + d)[|b|..];
    }
  }

  /** The encoder's step on a code point that it does not leave alone. */
  lemma EncodeScalar(v: int, rest: Text)
    requires Scalar(v)
    ensures EncodeComponent(Units(v) + rest) ==
            Prepend(if v < 0x80 && Unreserved(v) then [v] else EscapeAll(Utf8(v)), EncodeComponent(rest))
  {
    hide Utf8, EscapeAll;
    var s := Units(v) + rest;
    assert s[|Units(v)|..] == rest;
    assert PairAhead(s) <==> v >= 0x10000;
    if PairAhead(s) {
      assert PairValue(s[0], s[1]) == v;
    }
  }

  lemma EscapedIsUtf8(t: Text)
    requires Escaped(t).Some?
    ensures Escaped(t).value == Utf8(CodePoint(Escaped(t).value).value)
    ensures Octets(t, |Escaped(t).value|) == Escaped(t)
  {
    ShortestOnly(CodePoint(Escaped(t).value).value, Escaped(t).value);
  }

  lemma SingleByte(v: int)
    requires Scalar(v)
    ensures |Utf8(v)| == 1 <==> v < 0x80
    ensures v < 0x80 ==> Utf8(v) == [v]
  {
  }

  /** Decoding and encoding again gives a text back exactly when it is canonical. */
  lemma {:induction false} CanonicalExactly(t: Text)
    ensures CanonicalPart(t) <==> DecodeComponent(t).Some? && EncodeComponent(DecodeComponent(t).value) == Some(t)
    decreases |t|
  {
    if t == [] {
    } else if t[0] != PERCENT {
      CanonicalExactly(t[1..]);
      PlainFront(t);
    } else if Escaped(t).Some? {
      CanonicalExactly(t[3 * |Escaped(t).value|..]);
      EscapedFront(t);
    }
  }

  lemma EncodePlain(u: Unit, rest: Text)
    requires Unreserved(u)
    ensures EncodeComponent([u] + rest) == Prepend([u], EncodeComponent(rest))
  {
    assert ([u] + rest)[1..] == rest;
  }

  lemma EncodesToPercent(s: Text)
    requires s != [] && !Unreserved(s[0]) && EncodeComponent(s).Some?
    ensures EncodeComponent(s).value != [] && EncodeComponent(s).value[0] == PERCENT
  {
    hide Utf8, EscapeAll;
    EscapesStartWithPercent(FrontScalar(s));
  }

  lemma PlainFront(t: Text)
    requires t != [] && t[0] != PERCENT
    requires CanonicalPart(t[1..]) <==>
             DecodeComponent(t[1..]).Some? && EncodeComponent(DecodeComponent(t[1..]).value) == Some(t[1..])
    ensures CanonicalPart(t) <==> DecodeComponent(t).Some? && EncodeComponent(DecodeComponent(t).value) == Some(t)
  {
    assert CanonicalPart(t) <==> Unreserved(t[0]) && CanonicalPart(t[1..]);
    hide EncodeComponent, DecodeComponent, CanonicalPart;
    assert t == [t[0]] + t[1..];
    DecodePlain(t[0], t[1..]);
    if DecodeComponent(t).Some? {
      var rest := DecodeComponent(t[1..]).value;
      if Unreserved(t[0]) {
        EncodePlain(t[0], rest);
        if EncodeComponent(rest).Some? {
          SameSplit([t[0]], [t[0]], EncodeComponent(rest).value, t[1..]);
        }
      } else if EncodeComponent([t[0]] + rest).Some? {
        EncodesToPercent([t[0]] + rest);
      }
    }
  }

  lemma EscapedFront(t: Text)
    requires t != [] && t[0] == PERCENT && Escaped(t).Some?
    requires var rest := t[3 * |Escaped(t).value|..];
             CanonicalPart(rest) <==> DecodeComponent(rest).Some? && EncodeComponent(DecodeComponent(rest).value) == Some(rest)
    ensures CanonicalPart(t) <==> DecodeComponent(t).Some? && EncodeComponent(DecodeComponent(t).value) == Some(t)
  {
    hide Utf8, EscapeAll, Escaped, Octets, CodePoint, Units, UpperCase;
    var bytes := Escaped(t).value;
    var v, n := CodePoint(bytes).value, 3 * |bytes|;
    EscapedIsUtf8(t);
    UpperCaseEscapes(t, |bytes|);
    SingleByte(v);
    OctetsRead(bytes, []);
    if DecodeComponent(t).Some? {
      var rest := DecodeComponent(t[n..]).value;
      EncodeScalar(v, rest);
      assert t == t[..n] + t[n..];
      if EncodeComponent(rest).Some? && !(v < 0x80 && Unreserved(v)) {
        SameSplit(EscapeAll(bytes), t[..n], EncodeComponent(rest).value, t[n..]);
      }
    }
  }

  // --- The encoding, unit by unit ----------------------------------------------------------------

  /** The characters the standard leaves unescaped. */
  predicate Unescaped(u: Unit) {
    || 'A' as int <= u <= 'Z' as int || 'a' as int <= u <= 'z' as int || '0' as int <= u <= '9' as int
    || u in Ascii("-_.!~*'()")
  }

  lemma MarksAreUnreserved(u: Unit)
    ensures u in Ascii("-_.!~*'()") <==>
            u == 0x2D || u == 0x5F || u == 0x2E || u == 0x21 || u == 0x7E || u == 0x2A || u == 0x27 || u == 0x28 || u == 0x29
  {
    var marks := Ascii("-_.!~*'()");
    assert marks == [0x2D, 0x5F, 0x2E, 0x21, 0x7E, 0x2A, 0x27, 0x28, 0x29];
  }

  /** An ASCII unit in front of a text. */
  lemma AsciiThen(u: Unit, rest: Text)
    requires u < 0x80
    ensures EncodeComponent([u] + rest) ==
            Prepend(if Unreserved(u) then [u] else EscapeByte(u), EncodeComponent(rest))
  {
    var s := [u] + rest;
    assert s[1..] == rest && !PairAhead(s) && FrontScalar(s) == u;
    var bytes: seq<Byte> := [u];
    assert bytes[1..] == [] && Utf8(u) == bytes;
    assert EscapeAll(bytes) == EscapeByte(u) + EscapeAll([]);
    assert EscapeAll(bytes) == EscapeByte(u);
  }

  /** Every ASCII unit is left alone if it is one of the unescaped characters, and otherwise reads %XX in upper case. */
  lemma AsciiEncoding(u: Unit)
    requires u < 0x80
    ensures EncodeComponent([u]) ==
            Some(if Unescaped(u) then [u]
                 else Ascii("%") + [Ascii("0123456789ABCDEF")[u / 16]] + [Ascii("0123456789ABCDEF")[u % 16]])
  {
    MarksAreUnreserved(u);
    AsciiThen(u, []);
    assert [u] + [] == [u];
    UpperHex(u / 16);
    UpperHex(u % 16);
    hide HexDigit, EncodeComponent;
    EncodeNothing();
    assert EscapeByte(u) + [] == EscapeByte(u);
    assert EscapeByte(u) == Ascii("%") + [HexDigit(u / 16, Upper)] + [HexDigit(u % 16, Upper)];
  }

  lemma EncodeNothing()
    ensures EncodeComponent([]) == Some([])
  {
  }

  lemma UpperHex(d: int)
    requires 0 <= d < 16
    ensures HexDigit(d, Upper) == Ascii("0123456789ABCDEF")[d]
  {
    var digits := Ascii("0123456789ABCDEF");
    assert digits[..8] == [0x30, 0x31, 0x32, 0x33, 0x34, 0x35, 0x36, 0x37];
    assert digits[8..] == [0x38, 0x39, 0x41, 0x42, 0x43, 0x44, 0x45, 0x46];
    assert digits[d] == if d < 8 then digits[..8][d] else digits[8..][d - 8];
  }

  /** Unreserved text in front of any other. */
  lemma {:induction false} PlainPrefix(front: Text, rest: Text)
    requires forall i :: 0 <= i < |front| ==> Unreserved(front[i])
    ensures EncodeComponent(front + rest) == Prepend(front, EncodeComponent(rest))
  {
    if front == [] {
      assert front + rest == rest;
      assert forall text: Text :: [] + text == text;
    } else {
      PlainPrefix(front[1..], rest);
      assert front + rest == [front[0]] + (front[1..] + rest);
      EncodePlain(front[0], front[1..] + rest);
      if EncodeComponent(rest).Some? {
        assert [front[0]] + (front[1..] + EncodeComponent(rest).value) == front + EncodeComponent(rest).value;
      }
    }
  }

  /** The examples of section 7 of RFC 3629, and the surrogate pair of the last of them. */
  lemma StandardExamples()
    ensures Utf8(0x41) == [0x41] && Utf8(0x391) == [0xCE, 0x91] && Utf8(0x2262) == [0xE2, 0x89, 0xA2]
    ensures Utf8(0xD55C) == [0xED, 0x95, 0x9C] && Utf8(0x65E5) == [0xE6, 0x97, 0xA5]
    ensures Utf8(0x233B4) == [0xF0, 0xA3, 0x8E, 0xB4] && Units(0x233B4) == [0xD84C, 0xDFB4]
  {
  }

  // --- What decodes --------------------------------------------------------------------------------

  function InUpperCase(t: Text): (r: Text)
    ensures |r| == |t|
    ensures forall i :: 0 <= i < |t| ==> r[i] == if 0x61 <= t[i] <= 0x66 then t[i] - 0x20 else t[i]
  {
    seq(|t|, i requires 0 <= i < |t| => if 0x61 <= t[i] <= 0x66 then t[i] - 0x20 else t[i])
  }

  /** Escapes read the same in upper case. */
  lemma {:induction false} OctetsInUpperCase(t: Text, n: nat)
    requires 3 * n <= |t|
    ensures Octets(t, n) == Octets(InUpperCase(t[..3 * n]), n)
  {
    if n > 0 {
      var front := t[..3 * n];
      var upper := InUpperCase(front);
      assert Octet(t) == Octet(upper);
      OctetsInUpperCase(t[3..], n - 1);
      assert upper[3..] == InUpperCase(t[3..][..3 * (n - 1)]);
    }
  }

  /** Text that starts with escapes decodes there exactly when they spell, in either case, the UTF-8 form of a code point. */
  lemma EscapedExactly(t: Text, v: int)
    requires Scalar(v)
    ensures Escaped(t) == Some(Utf8(v)) <==>
            3 * |Utf8(v)| <= |t| && InUpperCase(t[..3 * |Utf8(v)|]) == EscapeAll(Utf8(v))
  {
    hide Utf8;
    var bytes, n := Utf8(v), |Utf8(v)|;
    Utf8Decodes(v);
    if 3 * n <= |t| {
      OctetsInUpperCase(t, n);
      var upper := InUpperCase(t[..3 * n]);
      if Escaped(t) == Some(bytes) {
        EscapedIsUtf8(t);
        UpperCaseEscapes(upper, n);
        assert upper[..3 * n] == upper;
      }
      if upper == EscapeAll(bytes) {
        OctetsRead(bytes, []);
        assert EscapeAll(bytes) + [] == EscapeAll(bytes);
        FirstOctet(t, n);
      }
    }
  }

  lemma FirstOctet(t: Text, n: nat)
    requires n > 0 && Octets(t, n).Some?
    ensures Octet(t) == Some(Octets(t, n).value[0])
  {
  }
}

/**
 * JSON values, the text `JSON.stringify` gives them, and a parser.
 *
 * A finite number is represented by the text `Number::toString` gives it
 * (section 6.1.6.1.20 of ECMA-262): distinct finite doubles other than the two
 * zeros have distinct texts.
 */
module JsonText {
  import opened Wrappers
  import opened Utf16
  import opened Hex
  import opened Texts
  import opened Decimals

  const QUOTE: Unit := 0x22
  const COMMA: Unit := 0x2C
  const COLON: Unit := 0x3A
  const LEFT_BRACKET: Unit := 0x5B
  const BACKSLASH: Unit := 0x5C
  const RIGHT_BRACKET: Unit := 0x5D
  const LETTER_U: Unit := 0x75
  const LEFT_BRACE: Unit := 0x7B
  const RIGHT_BRACE: Unit := 0x7D
  const ZERO: Text := [0x30]
  const NULL_TEXT: Text := [0x6E, 0x75, 0x6C, 0x6C]
  const TRUE_TEXT: Text := [0x74, 0x72, 0x75, 0x65]
  const FALSE_TEXT: Text := [0x66, 0x61, 0x6C, 0x73, 0x65]

  /** A unit that occurs in the text of a finite number: a digit, or one of + - . e */
  predicate NumberUnit(u: Unit) {
    Digit(u) || u == 0x2B || u == 0x2D || u == 0x2E || u == 0x65
  }

  predicate IsNumberText(t: Text) {
    && t != [] && (Digit(t[0]) || t[0] == 0x2D)
    && forall i :: 0 <= i < |t| ==> NumberUnit(t[i])
  }

  type NumberText = t: Text | IsNumberText(t) witness [0x30]

  datatype Number = Finite(text: NumberText) | NegativeZero | NonFinite

  datatype Member = Member(key: Text, value: Json)

  /** Objects list their own properties in own-key order. */
  datatype Json =
    | Null
    | Bool(value: bool)
    | Num(number: Number)
    | Str(text: Text)
    | Arr(items: seq<Json>)
    | Obj(members: seq<Member>)

  // --- Strings ------------------------------------------------------------------

  function Hex4(u: Unit): Text {
    [HexDigit(u / 0x1000, Lower), HexDigit(u / 0x100 % 0x10, Lower), HexDigit(u / 0x10 % 0x10, Lower), HexDigit(u % 0x10, Lower)]
  }

  /** The letter after the backslash of a two-unit escape. */
  function ShortEscape(u: Unit): Option<Unit> {
    if u == QUOTE || u == BACKSLASH then Some(u)
    else if u == 0x08 then Some(0x62)
    else if u == 0x09 then Some(0x74)
    else if u == 0x0A then Some(0x6E)
    else if u == 0x0C then Some(0x66)
    else if u == 0x0D then Some(0x72)
    else None
  }

  function ShortUnescape(u: Unit): Option<Unit> {
    if u == QUOTE || u == BACKSLASH || u == 0x2F then Some(u)
    else if u == 0x62 then Some(0x08)
    else if u == 0x74 then Some(0x09)
    else if u == 0x6E then Some(0x0A)
    else if u == 0x66 then Some(0x0C)
    else if u == 0x72 then Some(0x0D)
    else None
  }

  /** A unit outside a surrogate pair, as `QuoteJSONString` writes it. */
  function EscapeUnit(u: Unit): Text {
    if ShortEscape(u).Some? then [BACKSLASH, ShortEscape(u).value]
    else if u < 0x20 || Surrogate(u) then [BACKSLASH, LETTER_U] + Hex4(u)
    else [u]
  }

  function QuoteBody(s: Text): Text {
    if s == [] then []
    else if PairAhead(s) then s[..2] + QuoteBody(s[2..])
    else EscapeUnit(s[0]) + QuoteBody(s[1..])
  }

  function Quote(s: Text): Text {
    [QUOTE] + QuoteBody(s) + [QUOTE]
  }

  // --- Printing --------------------------------------------------------------------

  function StringifyNumber(n: Number): Text {
    match n
    case Finite(text) => text
    case NegativeZero => ZERO
    case NonFinite => NULL_TEXT
  }

  /** What `JSON.stringify` prints, objects in own-key order. */
  function Stringify(j: Json): Text
    decreases j
  {
    match j
    case Null => NULL_TEXT
    case Bool(b) => if b then TRUE_TEXT else FALSE_TEXT
    case Num(n) => StringifyNumber(n)
    case Str(s) => Quote(s)
    case Arr(items) =>
      [LEFT_BRACKET] + (if items == [] then [] else Stringify(items[0]) + StringifyRest(items[1..])) + [RIGHT_BRACKET]
    case Obj(members) =>
      [LEFT_BRACE] + (if members == [] then [] else StringifyMember(members[0]) + StringifyMembers(members[1..])) + [RIGHT_BRACE]
  }

  /** Each item after a comma. */
  function StringifyRest(items: seq<Json>): Text
    decreases items
  {
    if items == [] then [] else [COMMA] + Stringify(items[0]) + StringifyRest(items[1..])
  }

  function StringifyMember(m: Member): Text
    decreases m
  {
    Quote(m.key) + [COLON] + Stringify(m.value)
  }

  function StringifyMembers(members: seq<Member>): Text
    decreases members
  {
    if members == [] then [] else [COMMA] + StringifyMember(members[0]) + StringifyMembers(members[1..])
  }

  // --- Parsing ------------------------------------------------------------------------

  /** The rest of a string literal after its opening quote. */
  function ParseBody(t: Text): (r: Option<(Text, Text)>)
    ensures r.Some? ==> |r.value.1| < |t|
    decreases |t|
  {
    if t == [] then None
    else if t[0] == QUOTE then Some(([], t[1..]))
    else if t[0] == BACKSLASH then
      if |t| >= 2 && ShortUnescape(t[1]).Some? then PrependUnit(ShortUnescape(t[1]).value, ParseBody(t[2..]))
      else if |t| >= 6 && t[1] == LETTER_U && ParseHex4(t[2..6]).Some? then PrependUnit(ParseHex4(t[2..6]).value, ParseBody(t[6..]))
      else None
    else if t[0] < 0x20 then None
    else PrependUnit(t[0], ParseBody(t[1..]))
  }

  function PrependUnit(u: Unit, r: Option<(Text, Text)>): Option<(Text, Text)> {
    if r.None? then None else Some(([u] + r.value.0, r.value.1))
  }

  function ParseHex4(t: Text): Option<Unit>
    requires |t| == 4
  {
    var a, b, c, d := HexValue(t[0]), HexValue(t[1]), HexValue(t[2]), HexValue(t[3]);
    if a.Some? && b.Some? && c.Some? && d.Some? then
      Some(((a.value * 0x10 + b.value) * 0x10 + c.value) * 0x10 + d.value)
    else None
  }

  /** How many units of a number stand at the front. */
  function NumberLength(t: Text): (n: nat)
    ensures n <= |t|
    ensures forall i :: 0 <= i < n ==> NumberUnit(t[i])
  {
    if t == [] || !NumberUnit(t[0]) then 0 else 1 + NumberLength(t[1..])
  }

  function ParseValue(t: Text): (r: Option<(Json, Text)>)
    ensures r.Some? ==> |r.value.1| < |t|
    decreases |t|, 0
  {
    if t == [] then None
    else if NULL_TEXT <= t then Some((Null, t[4..]))
    else if TRUE_TEXT <= t then Some((Bool(true), t[4..]))
    else if FALSE_TEXT <= t then Some((Bool(false), t[5..]))
    else if t[0] == QUOTE then
      var body := ParseBody(t[1..]);
      if body.None? then None else Some((Str(body.value.0), body.value.1))
    else if t[0] == LEFT_BRACKET then
      if |t| >= 2 && t[1] == RIGHT_BRACKET then Some((Arr([]), t[2..]))
      else
        var first := ParseValue(t[1..]);
        if first.None? then None
        else
          var rest := ParseRest(first.value.1);
          if rest.None? then None else Some((Arr([first.value.0] + rest.value.0), rest.value.1))
    else if t[0] == LEFT_BRACE then
      if |t| >= 2 && t[1] == RIGHT_BRACE then Some((Obj([]), t[2..]))
      else
        var first := ParseMember(t[1..]);
        if first.None? then None
        else
          var rest := ParseMembers(first.value.1);
          if rest.None? then None else Some((Obj([first.value.0] + rest.value.0), rest.value.1))
    else if Digit(t[0]) || t[0] == 0x2D then
      var n := NumberLength(t);
      Some((Num(Finite(t[..n])), t[n..]))
    else None
  }

  function ParseRest(t: Text): (r: Option<(seq<Json>, Text)>)
    ensures r.Some? ==> |r.value.1| < |t|
    decreases |t|, 0
  {
    if t == [] then None
    else if t[0] == RIGHT_BRACKET then Some(([], t[1..]))
    else if t[0] != COMMA then None
    else
      var first := ParseValue(t[1..]);
      if first.None? then None
      else
        var rest := ParseRest(first.value.1);
        if rest.None? then None else Some(([first.value.0] + rest.value.0, rest.value.1))
  }

  function ParseMember(t: Text): (r: Option<(Member, Text)>)
    ensures r.Some? ==> |r.value.1| < |t|
    decreases |t|, 1
  {
    if t == [] || t[0] != QUOTE then None
    else
      var key := ParseBody(t[1..]);
      if key.None? || key.value.1 == [] || key.value.1[0] != COLON then None
      else
        var value := ParseValue(key.value.1[1..]);
        if value.None? then None else Some((Member(key.value.0, value.value.0), value.value.1))
  }

  function ParseMembers(t: Text): (r: Option<(seq<Member>, Text)>)
    ensures r.Some? ==> |r.value.1| < |t|
    decreases |t|, 0
  {
    if t == [] then None
    else if t[0] == RIGHT_BRACE then Some(([], t[1..]))
    else if t[0] != COMMA then None
    else
      var first := ParseMember(t[1..]);
      if first.None? then None
      else
        var rest := ParseMembers(first.value.1);
        if rest.None? then None else Some(([first.value.0] + rest.value.0, rest.value.1))
  }

  // --- The parser undoes the printer ----------------------------------------------------

  /** No number in the value is a negative zero or non-finite: the printer loses nothing. */
  predicate Exact(j: Json)
    decreases j
  {
    match j
    case Num(n) => n.Finite?
    case Arr(items) => forall i :: 0 <= i < |items| ==> Exact(items[i])
    case Obj(members) => forall i :: 0 <= i < |members| ==> Exact(members[i].value)
    case _ => true
  }

  lemma HexDigitsAddUp(u: Unit)
    ensures ((u / 0x1000 * 0x10 + u / 0x100 % 0x10) * 0x10 + u / 0x10 % 0x10) * 0x10 + u % 0x10 == u
  {
    assert u / 0x10 == u / 0x100 * 0x10 + u / 0x10 % 0x10;
    assert u / 0x100 == u / 0x1000 * 0x10 + u / 0x100 % 0x10;
  }

  lemma Hex4Parses(u: Unit)
    ensures ParseHex4(Hex4(u)) == Some(u)
  {
    hide HexDigit, HexValue;
    HexDigitsAddUp(u);
    HexDigitParses(u / 0x1000, Lower);
    HexDigitParses(u / 0x100 % 0x10, Lower);
    HexDigitParses(u / 0x10 % 0x10, Lower);
    HexDigitParses(u % 0x10, Lower);
  }

  lemma EscapeParses(u: Unit, tail: Text)
    ensures ParseBody(EscapeUnit(u) + tail) == PrependUnit(u, ParseBody(tail))
  {
    var t := EscapeUnit(u) + tail;
    if ShortEscape(u).Some? {
      assert t[2..] == tail;
    } else if u < 0x20 || Surrogate(u) {
      assert t[2..6] == Hex4(u);
      assert t[6..] == tail;
      Hex4Parses(u);
    } else {
      assert t[1..] == tail;
    }
  }

  lemma RawParses(u: Unit, tail: Text)
    requires Surrogate(u)
    ensures ParseBody([u] + tail) == PrependUnit(u, ParseBody(tail))
  {
    assert ([u] + tail)[1..] == tail;
  }

  lemma Regroup3(a: Text, b: Text, c: Text)
    ensures a + b + c == a + (b + c)
  {
  }

  lemma Regroup4(a: Text, b: Text, c: Text, d: Text)
    ensures a + b + c + d == a + (b + (c + d))
  {
  }

  lemma Regroup5(a: Text, b: Text, c: Text, d: Text, e: Text)
    ensures a + (b + c) + d + e == a + (b + (c + d + e))
  {
  }

  lemma PairParses(s: Text, rest: Text, tail: Text)
    requires PairAhead(s) && ParseBody(rest) == Some((s[2..], tail))
    ensures ParseBody(s[..2] + rest) == Some((s, tail))
  {
    assert s[..2] + rest == [s[0]] + ([s[1]] + rest);
    RawParses(s[1], rest);
    RawParses(s[0], [s[1]] + rest);
    assert s == [s[0]] + ([s[1]] + s[2..]);
  }

  lemma SingleParses(s: Text, rest: Text, tail: Text)
    requires s != [] && ParseBody(rest) == Some((s[1..], tail))
    ensures ParseBody(EscapeUnit(s[0]) + rest) == Some((s, tail))
  {
    EscapeParses(s[0], rest);
    assert s == [s[0]] + s[1..];
  }

  lemma {:induction false} QuoteParses(s: Text, tail: Text)
    ensures ParseBody(QuoteBody(s) + ([QUOTE] + tail)) == Some((s, tail))
    decreases |s|
  {
    if s == [] {
      assert QuoteBody(s) + ([QUOTE] + tail) == [QUOTE] + tail;
    } else if PairAhead(s) {
      QuoteParses(s[2..], tail);
      PairParses(s, QuoteBody(s[2..]) + ([QUOTE] + tail), tail);
      Regroup3(s[..2], QuoteBody(s[2..]), [QUOTE] + tail);
    } else {
      QuoteParses(s[1..], tail);
      SingleParses(s, QuoteBody(s[1..]) + ([QUOTE] + tail), tail);
      Regroup3(EscapeUnit(s[0]), QuoteBody(s[1..]), [QUOTE] + tail);
    }
  }

  lemma {:induction false} NumberLengthStops(n: Text, tail: Text)
    requires forall i :: 0 <= i < |n| ==> NumberUnit(n[i])
    requires tail == [] || !NumberUnit(tail[0])
    ensures NumberLength(n + tail) == |n|
  {
    if n == [] {
      assert n + tail == tail;
    } else {
      assert (n + tail)[1..] == n[1..] + tail;
      NumberLengthStops(n[1..], tail);
    }
  }

  /** A number needs a text behind it that does not continue it. */
  predicate Delimited(j: Json, tail: Text) {
    j.Num? && tail != [] ==> !NumberUnit(tail[0])
  }

  lemma NumberParses(n: NumberText, tail: Text)
    requires tail == [] || !NumberUnit(tail[0])
    ensures ParseValue(n + tail) == Some((Num(Finite(n)), tail))
  {
    var t := n + tail;
    assert t[0] == n[0];
    NumberLengthStops(n, tail);
    assert t[..|n|] == n && t[|n|..] == tail;
  }

  lemma StringParses(s: Text, tail: Text)
    ensures ParseValue(Quote(s) + tail) == Some((Str(s), tail))
  {
    var t := Quote(s) + tail;
    hide QuoteBody, ParseBody;
    QuoteParses(s, tail);
    Regroup4([QUOTE], QuoteBody(s), [QUOTE], tail);
    assert t[0] == QUOTE && t[1..] == QuoteBody(s) + ([QUOTE] + tail);
  }

  lemma ArrayFromParts(first: Json, rest: seq<Json>, text: Text, behind: Text, tail: Text)
    requires text != [] && text[0] != RIGHT_BRACKET
    requires ParseValue(text + behind) == Some((first, behind)) && ParseRest(behind) == Some((rest, tail))
    ensures ParseValue([LEFT_BRACKET] + (text + behind)) == Some((Arr([first] + rest), tail))
  {
    assert ([LEFT_BRACKET] + (text + behind))[1..] == text + behind;
  }

  lemma RestFromParts(first: Json, rest: seq<Json>, text: Text, behind: Text, tail: Text)
    requires ParseValue(text + behind) == Some((first, behind)) && ParseRest(behind) == Some((rest, tail))
    ensures ParseRest([COMMA] + (text + behind)) == Some(([first] + rest, tail))
  {
    assert ([COMMA] + (text + behind))[1..] == text + behind;
  }

  lemma ObjectFromParts(first: Member, rest: seq<Member>, text: Text, behind: Text, tail: Text)
    requires text != [] && text[0] == QUOTE
    requires ParseMember(text + behind) == Some((first, behind)) && ParseMembers(behind) == Some((rest, tail))
    ensures ParseValue([LEFT_BRACE] + (text + behind)) == Some((Obj([first] + rest), tail))
  {
    assert ([LEFT_BRACE] + (text + behind))[1..] == text + behind;
  }

  lemma MembersFromParts(first: Member, rest: seq<Member>, text: Text, behind: Text, tail: Text)
    requires ParseMember(text + behind) == Some((first, behind)) && ParseMembers(behind) == Some((rest, tail))
    ensures ParseMembers([COMMA] + (text + behind)) == Some(([first] + rest, tail))
  {
    assert ([COMMA] + (text + behind))[1..] == text + behind;
  }

  lemma MemberFromParts(key: Text, value: Json, text: Text, tail: Text)
    requires ParseValue(text + tail) == Some((value, tail))
    ensures ParseMember(Quote(key) + [COLON] + text + tail) == Some((Member(key, value), tail))
  {
    var behind := [COLON] + (text + tail);
    QuoteParses(key, behind);
    Regroup4(Quote(key), [COLON], text, tail);
    Regroup4([QUOTE], QuoteBody(key), [QUOTE], behind);
    var t := Quote(key) + behind;
    assert t[1..] == QuoteBody(key) + ([QUOTE] + behind);
    assert behind[1..] == text + tail;
  }

  /** A printed value never starts with a closing bracket. */
  lemma StartsWithValue(j: Json)
    requires Exact(j)
    ensures Stringify(j) != [] && Stringify(j)[0] != RIGHT_BRACKET
  {
  }

  lemma MemberStartsWithQuote(m: Member)
    ensures StringifyMember(m) != [] && StringifyMember(m)[0] == QUOTE
  {
  }

  lemma RestDelimits(items: seq<Json>, tail: Text)
    ensures StringifyRest(items) + [RIGHT_BRACKET] + tail != []
    ensures !NumberUnit((StringifyRest(items) + [RIGHT_BRACKET] + tail)[0])
  {
  }

  lemma MembersDelimit(members: seq<Member>, tail: Text)
    ensures StringifyMembers(members) + [RIGHT_BRACE] + tail != []
    ensures !NumberUnit((StringifyMembers(members) + [RIGHT_BRACE] + tail)[0])
  {
  }

  lemma LiteralsParse(tail: Text)
    ensures ParseValue(NULL_TEXT + tail) == Some((Null, tail))
    ensures ParseValue(TRUE_TEXT + tail) == Some((Bool(true), tail))
    ensures ParseValue(FALSE_TEXT + tail) == Some((Bool(false), tail))
  {
    var n, t, f := NULL_TEXT + tail, TRUE_TEXT + tail, FALSE_TEXT + tail;
    assert n[..4] == NULL_TEXT && n[4..] == tail;
    assert t[..4] == TRUE_TEXT && t[4..] == tail && t[0] != NULL_TEXT[0];
    assert f[..5] == FALSE_TEXT && f[5..] == tail && f[0] != NULL_TEXT[0] && f[0] != TRUE_TEXT[0];
  }

  /** The parser undoes the printer on every exact value, whatever text follows. */
  lemma {:induction false} ParserUndoesPrinter(j: Json, tail: Text)
    requires Exact(j) && Delimited(j, tail)
    ensures ParseValue(Stringify(j) + tail) == Some((j, tail))
    decreases j, 1
  {
    match j
    case Null => LiteralsParse(tail);
    case Bool(b) => LiteralsParse(tail);
    case Num(n) => NumberParses(n.text, tail);
    case Str(s) => StringParses(s, tail);
    case Arr(items) => ArrayParses(items, tail);
    case Obj(members) => ObjectParses(members, tail);
  }

  lemma {:induction false} ArrayParses(items: seq<Json>, tail: Text)
    requires forall i :: 0 <= i < |items| ==> Exact(items[i])
    ensures ParseValue(Stringify(Arr(items)) + tail) == Some((Arr(items), tail))
    decreases items, 0
  {
    if items == [] {
      assert (Stringify(Arr(items)) + tail)[2..] == tail;
    } else {
      var text, rest := Stringify(items[0]), StringifyRest(items[1..]);
      var behind := rest + [RIGHT_BRACKET] + tail;
      RestDelimits(items[1..], tail);
      ParserUndoesPrinter(items[0], behind);
      RestParses(items[1..], tail);
      StartsWithValue(items[0]);
      ArrayFromParts(items[0], items[1..], text, behind, tail);
      Regroup5([LEFT_BRACKET], text, rest, [RIGHT_BRACKET], tail);
      assert items == [items[0]] + items[1..];
    }
  }

  lemma {:induction false} RestParses(items: seq<Json>, tail: Text)
    requires forall i :: 0 <= i < |items| ==> Exact(items[i])
    ensures ParseRest(StringifyRest(items) + [RIGHT_BRACKET] + tail) == Some((items, tail))
    decreases items, 0
  {
    if items == [] {
      assert StringifyRest(items) + [RIGHT_BRACKET] + tail == [RIGHT_BRACKET] + tail;
    } else {
      var text, rest := Stringify(items[0]), StringifyRest(items[1..]);
      var behind := rest + [RIGHT_BRACKET] + tail;
      RestDelimits(items[1..], tail);
      ParserUndoesPrinter(items[0], behind);
      RestParses(items[1..], tail);
      RestFromParts(items[0], items[1..], text, behind, tail);
      Regroup3([COMMA], text, rest);
      Regroup5([COMMA], text, rest, [RIGHT_BRACKET], tail);
      assert items == [items[0]] + items[1..];
    }
  }

  lemma {:induction false} MemberParses(m: Member, tail: Text)
    requires Exact(m.value) && Delimited(m.value, tail)
    ensures ParseMember(StringifyMember(m) + tail) == Some((m, tail))
    decreases m, 0
  {
    ParserUndoesPrinter(m.value, tail);
    MemberFromParts(m.key, m.value, Stringify(m.value), tail);
  }

  lemma EmptyObjectParses(tail: Text)
    ensures ParseValue(Stringify(Obj([])) + tail) == Some((Obj([]), tail))
  {
    var members: seq<Member> := [];
    assert Stringify(Obj(members)) == [LEFT_BRACE, RIGHT_BRACE];
    var t := [LEFT_BRACE, RIGHT_BRACE] + tail;
    assert t[0] == LEFT_BRACE && t[1..][0] == RIGHT_BRACE && t[2..] == tail;
  }

  lemma StringifyObject(members: seq<Member>)
    requires members != []
    ensures Stringify(Obj(members))
            == [LEFT_BRACE] + (StringifyMember(members[0]) + StringifyMembers(members[1..])) + [RIGHT_BRACE]
  {
    hide StringifyMember, StringifyMembers;
  }

  lemma {:induction false} ObjectParses(members: seq<Member>, tail: Text)
    requires forall i :: 0 <= i < |members| ==> Exact(members[i].value)
    ensures ParseValue(Stringify(Obj(members)) + tail) == Some((Obj(members), tail))
    decreases members, 0
  {
    hide ParseValue, ParseMember, ParseMembers, Stringify, StringifyMember, StringifyMembers, Delimited;
    if members == [] {
      EmptyObjectParses(tail);
    } else {
      var text, rest := StringifyMember(members[0]), StringifyMembers(members[1..]);
      var behind := rest + [RIGHT_BRACE] + tail;
      BehindMember(members, tail);
      MemberParses(members[0], behind);
      MembersParse(members[1..], tail);
      MemberStartsWithQuote(members[0]);
      ObjectFromParts(members[0], members[1..], text, behind, tail);
      StringifyObject(members);
      Regroup5([LEFT_BRACE], text, rest, [RIGHT_BRACE], tail);
      assert members == [members[0]] + members[1..];
    }
  }

  lemma BehindMember(members: seq<Member>, tail: Text)
    requires members != []
    ensures Delimited(members[0].value, StringifyMembers(members[1..]) + [RIGHT_BRACE] + tail)
  {
    hide StringifyMembers;
    MembersDelimit(members[1..], tail);
  }

  lemma {:induction false} MembersParse(members: seq<Member>, tail: Text)
    requires forall i :: 0 <= i < |members| ==> Exact(members[i].value)
    ensures ParseMembers(StringifyMembers(members) + [RIGHT_BRACE] + tail) == Some((members, tail))
    decreases members, 0
  {
    if members == [] {
      assert StringifyMembers(members) + [RIGHT_BRACE] + tail == [RIGHT_BRACE] + tail;
    } else {
      var text, rest := StringifyMember(members[0]), StringifyMembers(members[1..]);
      var behind := rest + [RIGHT_BRACE] + tail;
      MembersDelimit(members[1..], tail);
      MemberParses(members[0], behind);
      MembersParse(members[1..], tail);
      MembersFromParts(members[0], members[1..], text, behind, tail);
      Regroup3([COMMA], text, rest);
      Regroup5([COMMA], text, rest, [RIGHT_BRACE], tail);
      assert members == [members[0]] + members[1..];
    }
  }

  /** Exact values with the same text are the same value. */
  lemma StringifyInjective(a: Json, b: Json)
    requires Exact(a) && Exact(b) && Stringify(a) == Stringify(b)
    ensures a == b
  {
    ParserUndoesPrinter(a, []);
    ParserUndoesPrinter(b, []);
    assert Stringify(a) + [] == Stringify(a) == Stringify(b) + [];
  }

  // --- The printed text, spelled out ---------------------------------------------------------

  lemma LowerHex(d: int)
    requires 0 <= d < 16
    ensures HexDigit(d, Lower) == Ascii("0123456789abcdef")[d]
  {
    var digits := Ascii("0123456789abcdef");
    assert digits[..8] == [0x30, 0x31, 0x32, 0x33, 0x34, 0x35, 0x36, 0x37];
    assert digits[8..] == [0x38, 0x39, 0x61, 0x62, 0x63, 0x64, 0x65, 0x66];
    assert digits[d] == if d < 8 then digits[..8][d] else digits[8..][d - 8];
  }

  /** What a unit outside a surrogate pair is written as. */
  function Written(u: Unit): Text {
    if u == 0x22 then Ascii("\\\"")
    else if u == 0x5C then Ascii("\\\\")
    else if u == 0x08 then Ascii("\\b")
    else if u == 0x09 then Ascii("\\t")
    else if u == 0x0A then Ascii("\\n")
    else if u == 0x0C then Ascii("\\f")
    else if u == 0x0D then Ascii("\\r")
    else if u < 0x20 || 0xD800 <= u < 0xE000 then
      var digits := Ascii("0123456789abcdef");
      Ascii("\\u") + [digits[u / 0x1000], digits[u / 0x100 % 0x10], digits[u / 0x10 % 0x10], digits[u % 0x10]]
    else [u]
  }

  lemma EscapeIsWritten(u: Unit)
    ensures EscapeUnit(u) == Written(u)
  {
    if EscapeUnit(u) == [BACKSLASH, LETTER_U] + Hex4(u) {
      hide HexDigit;
      LowerHex(u / 0x1000);
      LowerHex(u / 0x100 % 0x10);
      LowerHex(u / 0x10 % 0x10);
      LowerHex(u % 0x10);
    }
  }

  /** A surrogate pair is written as it is, any other unit by the table. */
  lemma QuoteUnits(s: Text, rest: Text)
    ensures PairAhead(s) && |s| == 2 ==> QuoteBody(s + rest) == s + QuoteBody(rest)
    ensures |s| == 1 && !PairAhead(s + rest) ==> QuoteBody(s + rest) == Written(s[0]) + QuoteBody(rest)
    ensures QuoteBody([]) == []
    ensures Quote(s) == Ascii("\"") + QuoteBody(s) + Ascii("\"")
  {
    if PairAhead(s) && |s| == 2 {
      assert (s + rest)[..2] == s && (s + rest)[2..] == rest;
    } else if |s| == 1 {
      assert (s + rest)[1..] == rest;
      EscapeIsWritten(s[0]);
    }
  }

  function ItemTexts(items: seq<Json>): (texts: seq<Text>)
    ensures |texts| == |items|
  {
    seq(|items|, i requires 0 <= i < |items| => Stringify(items[i]))
  }

  /** A member is its quoted key, a colon and its value. */
  function MemberTexts(members: seq<Member>): (texts: seq<Text>)
    ensures |texts| == |members|
  {
    seq(|members|, i requires 0 <= i < |members| =>
      Quote(members[i].key) + Ascii(":") + Stringify(members[i].value))
  }

  lemma {:induction false} RestIsJoined(first: Json, rest: seq<Json>)
    ensures Stringify(first) + StringifyRest(rest) == Join([Stringify(first)] + ItemTexts(rest), Ascii(","))
    decreases |rest|
  {
    hide Stringify;
    var texts := [Stringify(first)] + ItemTexts(rest);
    if rest == [] {
      assert Stringify(first) + [] == Stringify(first);
    } else {
      RestIsJoined(rest[0], rest[1..]);
      assert texts[1..] == [Stringify(rest[0])] + ItemTexts(rest[1..]);
      assert Ascii(",") == [COMMA];
      Regroup3([COMMA], Stringify(rest[0]), StringifyRest(rest[1..]));
      assert Stringify(first) + ([COMMA] + (Stringify(rest[0]) + StringifyRest(rest[1..])))
             == Stringify(first) + [COMMA] + (Stringify(rest[0]) + StringifyRest(rest[1..]));
    }
  }

  lemma {:induction false} MembersAreJoined(first: Member, rest: seq<Member>)
    ensures StringifyMember(first) + StringifyMembers(rest)
            == Join([StringifyMember(first)] + MemberTexts(rest), Ascii(","))
    decreases |rest|
  {
    hide StringifyMember;
    var texts := [StringifyMember(first)] + MemberTexts(rest);
    if rest == [] {
      assert StringifyMember(first) + [] == StringifyMember(first);
    } else {
      MembersAreJoined(rest[0], rest[1..]);
      MemberIsWritten(rest[0]);
      assert texts[1..] == [StringifyMember(rest[0])] + MemberTexts(rest[1..]);
      assert Ascii(",") == [COMMA];
      Regroup3([COMMA], StringifyMember(rest[0]), StringifyMembers(rest[1..]));
      assert StringifyMember(first) + ([COMMA] + (StringifyMember(rest[0]) + StringifyMembers(rest[1..])))
             == StringifyMember(first) + [COMMA] + (StringifyMember(rest[0]) + StringifyMembers(rest[1..]));
    }
  }

  lemma MemberIsWritten(m: Member)
    ensures StringifyMember(m) == Quote(m.key) + Ascii(":") + Stringify(m.value)
  {
    assert Ascii(":") == [COLON];
  }

  /** Every kind of value as it is printed: literals, quoted strings, brackets, braces, commas and colons. */
  lemma StringifyForms(j: Json)
    ensures Stringify(j) ==
            match j {
              case Null => Ascii("null")
              case Bool(b) => if b then Ascii("true") else Ascii("false")
              case Num(Finite(text)) => text
              case Num(NegativeZero) => Ascii("0")
              case Num(NonFinite) => Ascii("null")
              case Str(s) => Quote(s)
              case Arr(items) => Ascii("[") + Join(ItemTexts(items), Ascii(",")) + Ascii("]")
              case Obj(members) => Ascii("{") + Join(MemberTexts(members), Ascii(",")) + Ascii("}")
            }
  {
    hide Join;
    match j
    case Arr(items) => ArrayForm(items);
    case Obj(members) => ObjectForm(members);
    case _ =>
  }

  lemma ArrayForm(items: seq<Json>)
    ensures Stringify(Arr(items)) == Ascii("[") + Join(ItemTexts(items), Ascii(",")) + Ascii("]")
  {
    assert Ascii("[") == [LEFT_BRACKET] && Ascii("]") == [RIGHT_BRACKET];
    if items != [] {
      assert ItemTexts(items) == [Stringify(items[0])] + ItemTexts(items[1..]);
      RestIsJoined(items[0], items[1..]);
    }
  }

  lemma ObjectForm(members: seq<Member>)
    ensures Stringify(Obj(members)) == Ascii("{") + Join(MemberTexts(members), Ascii(",")) + Ascii("}")
  {
    assert Ascii("{") == [LEFT_BRACE] && Ascii("}") == [RIGHT_BRACE];
    if members != [] {
      MemberIsWritten(members[0]);
      assert MemberTexts(members) == [StringifyMember(members[0])] + MemberTexts(members[1..]);
      MembersAreJoined(members[0], members[1..]);
    }
  }

  /** Text that needs no escape is quoted as it is. */
  lemma {:induction false} PlainTextQuotes(s: Text)
    requires forall i :: 0 <= i < |s| ==> 0x20 <= s[i] < 0x80 && s[i] != QUOTE && s[i] != BACKSLASH
    ensures QuoteBody(s) == s
  {
    if s != [] {
      PlainTextQuotes(s[1..]);
      assert s == [s[0]] + s[1..];
    }
  }
}

/** Tuples of strings as entity ids: URI-encoded parts joined by colons. */
module EntityIdCodec {
  import opened Wrappers
  import opened Utf16
  import opened Texts
  import opened PercentEncoding

  const SEPARATOR: Unit := 0x3A

  datatype Decoded = Parts(parts: seq<Text>) | Malformed(segment: Text)

  function Split(t: Text): (parts: seq<Text>)
    ensures parts != []
  {
    if t == [] then [[]]
    else if t[0] == SEPARATOR then [[]] + Split(t[1..])
    else
      var rest := Split(t[1..]);
      [[t[0]] + rest[0]] + rest[1..]
  }

  function EncodeParts(tuple: seq<Text>): Option<seq<Text>> {
    if tuple == [] then Some([])
    else
      match (EncodeComponent(tuple[0]), EncodeParts(tuple[1..]))
      case (Some(part), Some(rest)) => Some([part] + rest)
      case _ => None
  }

  /** `None` is a thrown URIError. */
  function Encode(tuple: seq<Text>): Option<Text> {
    match EncodeParts(tuple)
    case None => None
    case Some(parts) => Some(Join(parts, [SEPARATOR]))
  }

  /** Decodes segment by segment and stops at the first malformed one. */
  function DecodeParts(segments: seq<Text>): Decoded {
    if segments == [] then Parts([])
    else
      match DecodeComponent(segments[0])
      case None => Malformed(segments[0])
      case Some(part) =>
        match DecodeParts(segments[1..])
        case Malformed(segment) => Malformed(segment)
        case Parts(parts) => Parts([part] + parts)
  }

  function Decode(entityId: Text): Decoded {
    DecodeParts(Split(entityId))
  }

  lemma {:induction false} JoinUndoesSplit(t: Text)
    ensures Join(Split(t), [SEPARATOR]) == t
  {
    if t != [] {
      JoinUndoesSplit(t[1..]);
    }
  }

  lemma {:induction false} SplitFindsSeparator(front: Text, rest: Text)
    requires SEPARATOR !in front
    ensures Split(front + [SEPARATOR] + rest) == [front] + Split(rest)
  {
    if front == [] {
      assert ([] + [SEPARATOR] + rest)[1..] == rest;
    } else {
      SplitFindsSeparator(front[1..], rest);
      assert (front + [SEPARATOR] + rest)[1..] == front[1..] + [SEPARATOR] + rest;
      assert [front[0]] + front[1..] == front;
    }
  }

  lemma {:induction false} SplitWhole(t: Text)
    requires SEPARATOR !in t
    ensures Split(t) == [t]
  {
    if t != [] {
      SplitWhole(t[1..]);
      assert [t[0]] + t[1..] == t;
    }
  }

  lemma {:induction false} SplitUndoesJoin(parts: seq<Text>)
    requires parts != []
    requires forall i :: 0 <= i < |parts| ==> SEPARATOR !in parts[i]
    ensures Split(Join(parts, [SEPARATOR])) == parts
  {
    if |parts| == 1 {
      SplitWhole(parts[0]);
    } else {
      SplitFindsSeparator(parts[0], Join(parts[1..], [SEPARATOR]));
      SplitUndoesJoin(parts[1..]);
    }
  }

  /** Encoded parts: as many as components, free of colons, and decoded one by one. */
  lemma {:induction false} PartsRoundTrip(tuple: seq<Text>)
    ensures EncodeParts(tuple).Some? <==> forall i :: 0 <= i < |tuple| ==> WellFormed(tuple[i])
    ensures EncodeParts(tuple).Some? ==>
              var parts := EncodeParts(tuple).value;
              && |parts| == |tuple|
              && (forall i :: 0 <= i < |parts| ==> SEPARATOR !in parts[i])
              && DecodeParts(parts) == Parts(tuple)
  {
    hide EncodeComponent, DecodeComponent, WellFormed;
    if tuple != [] {
      EncodesWellFormed(tuple[0]);
      if EncodeComponent(tuple[0]).Some? { ComponentRoundTrip(tuple[0]); }
      EncodedIsSafe(tuple[0]);
      PartsRoundTrip(tuple[1..]);
      assert (forall i :: 0 <= i < |tuple| ==> WellFormed(tuple[i])) <==>
             WellFormed(tuple[0]) && forall i :: 0 <= i < |tuple[1..]| ==> WellFormed(tuple[1..][i]) by {
        assert forall i :: 0 < i < |tuple| ==> tuple[i] == tuple[1..][i - 1];
      }
    }
  }

  /** An id exists exactly for well-formed components, and then decodes to the tuple unless the tuple is empty. */
  lemma RoundTrip(tuple: seq<Text>)
    ensures Encode(tuple).Some? <==> forall i :: 0 <= i < |tuple| ==> WellFormed(tuple[i])
    ensures Encode(tuple).Some? ==> (Decode(Encode(tuple).value) == Parts(tuple) <==> tuple != [])
  {
    PartsRoundTrip(tuple);
    if tuple == [] {
      assert Decode([]) == Parts([[]]);
    } else if Encode(tuple).Some? {
      SplitUndoesJoin(EncodeParts(tuple).value);
    }
  }

  /** Two tuples share an id only when they are equal, or are the empty tuple and the tuple of one empty string. */
  lemma EncodeInjective(t: seq<Text>, u: seq<Text>)
    requires Encode(t).Some?
    ensures Encode(t) == Encode(u) <==> t == u || (t == [] && u == [[]]) || (t == [[]] && u == [])
  {
    RoundTrip(t);
    RoundTrip(u);
    RoundTrip([[]]);
    var one: seq<Text> := [[]];
    assert one[1..] == [];
    assert Encode([]) == Some([]) && Encode(one) == Some([]);
  }

  /** Segment by segment, decoding and encoding again changes nothing exactly on canonical segments. */
  lemma {:induction false} SegmentsComeBack(segments: seq<Text>)
    ensures (forall i :: 0 <= i < |segments| ==> CanonicalPart(segments[i])) <==>
            DecodeParts(segments).Parts? && EncodeParts(DecodeParts(segments).parts) == Some(segments)
  {
    hide CanonicalPart, DecodeComponent, EncodeComponent;
    if segments == [] {
    } else {
      var rest := segments[1..];
      SegmentsComeBack(rest);
      CanonicalExactly(segments[0]);
      assert (forall i :: 0 <= i < |segments| ==> CanonicalPart(segments[i])) <==>
             CanonicalPart(segments[0]) && forall i :: 0 <= i < |rest| ==> CanonicalPart(rest[i]) by {
        assert forall i :: 0 < i < |segments| ==> segments[i] == rest[i - 1];
      }
      if DecodeParts(segments).Parts? {
        var parts := DecodeParts(segments).parts;
        assert parts[1..] == DecodeParts(rest).parts && parts[0] == DecodeComponent(segments[0]).value;
        assert segments == [segments[0]] + rest;
      }
    }
  }

  /** A text is the id of what it decodes to exactly when every segment of it is canonical. */
  lemma EncodeUndoesDecode(id: Text)
    ensures Decode(id).Parts? && Encode(Decode(id).parts) == Some(id) <==>
            forall i :: 0 <= i < |Split(id)| ==> CanonicalPart(Split(id)[i])
  {
    hide CanonicalPart;
    SegmentsComeBack(Split(id));
    JoinUndoesSplit(id);
    if Decode(id).Parts? && Encode(Decode(id).parts) == Some(id) {
      var parts := Decode(id).parts;
      PartsRoundTrip(parts);
      DecodesAsMany(Split(id));
      SplitUndoesJoin(EncodeParts(parts).value);
    }
  }

  lemma {:induction false} DecodesAsMany(segments: seq<Text>)
    ensures DecodeParts(segments).Parts? ==> |DecodeParts(segments).parts| == |segments|
  {
    if segments != [] {
      DecodesAsMany(segments[1..]);
    }
  }

  /** The first segment that does not decode is the one reported. */
  lemma {:induction false} FirstMalformed(segments: seq<Text>, i: nat)
    requires i < |segments| && DecodeComponent(segments[i]).None?
    requires forall j :: 0 <= j < i ==> DecodeComponent(segments[j]).Some?
    ensures DecodeParts(segments) == Malformed(segments[i])
  {
    if i > 0 {
      FirstMalformed(segments[1..], i - 1);
    }
  }

  lemma {:induction false} AllWellFormedDecode(segments: seq<Text>)
    requires forall j :: 0 <= j < |segments| ==> DecodeComponent(segments[j]).Some?
    ensures DecodeParts(segments).Parts?
    ensures |DecodeParts(segments).parts| == |segments|
    ensures forall j :: 0 <= j < |segments| ==> DecodeParts(segments).parts[j] == DecodeComponent(segments[j]).value
  {
    if segments != [] {
      AllWellFormedDecode(segments[1..]);
      assert forall j :: 0 < j < |segments| ==> segments[j] == segments[1..][j - 1];
    }
  }

  lemma EncodeCons(component: Text, rest: seq<Text>)
    requires EncodeComponent(component).Some? && EncodeParts(rest).Some?
    ensures EncodeParts([component] + rest) == Some([EncodeComponent(component).value] + EncodeParts(rest).value)
  {
    hide EncodeComponent;
    assert ([component] + rest)[1..] == rest;
  }

  lemma EncodeThree(a: Text, b: Text, c: Text)
    requires EncodeComponent(a).Some? && EncodeComponent(b).Some? && EncodeComponent(c).Some?
    ensures Encode([a, b, c]) ==
            Some(EncodeComponent(a).value + [SEPARATOR]
                 + (EncodeComponent(b).value + [SEPARATOR] + EncodeComponent(c).value))
  {
    hide EncodeComponent;
    var x, y, z := EncodeComponent(a).value, EncodeComponent(b).value, EncodeComponent(c).value;
    EncodeCons(c, []);
    EncodeCons(b, [c] + []);
    EncodeCons(a, [b] + ([c] + []));
    assert [a, b, c] == [a] + ([b] + ([c] + []));
    var last, two, parts: seq<Text> := [z], [y, z], [x, y, z];
    assert parts == [x] + ([y] + ([z] + []));
    assert parts[1..] == two && two[1..] == last;
    assert Join(two, [SEPARATOR]) == y + [SEPARATOR] + Join(last, [SEPARATOR]);
    assert Join(parts, [SEPARATOR]) == x + [SEPARATOR] + Join(two, [SEPARATOR]);
  }

  /** The id the documentation shows. */
  lemma DocumentedId()
    ensures Encode([Ascii("ws-1"), Ascii("sess-2"), Ascii("branch:3")]) == Some(Ascii("ws-1:sess-2:branch%3A3"))
  {
    hide EncodeComponent, Encode, Ascii;
    PlainWords();
    BranchEncodes();
    EncodeThree(Ascii("ws-1"), Ascii("sess-2"), Ascii("branch:3"));
    DocumentedText();
  }

  lemma DocumentedText()
    ensures Ascii("ws-1") + [SEPARATOR] + (Ascii("sess-2") + [SEPARATOR] + Ascii("branch%3A3"))
            == Ascii("ws-1:sess-2:branch%3A3")
  {
    hide Ascii;
    DocumentedFront();
    DocumentedBack();
    AsciiConcat("ws-1:", "sess-2:branch%3A3");
    assert "ws-1:" + "sess-2:branch%3A3" == "ws-1:sess-2:branch%3A3";
  }

  lemma DocumentedFront()
    ensures Ascii("ws-1") + [SEPARATOR] == Ascii("ws-1:")
    ensures Ascii("sess-2") + [SEPARATOR] == Ascii("sess-2:")
  {
  }

  lemma DocumentedBack()
    ensures Ascii("sess-2:") + Ascii("branch%3A3") == Ascii("sess-2:branch%3A3")
  {
    hide Ascii;
    AsciiConcat("sess-2:", "branch%3A3");
    assert "sess-2:" + "branch%3A3" == "sess-2:branch%3A3";
  }

  lemma PlainWords()
    ensures EncodeComponent(Ascii("ws-1")) == Some(Ascii("ws-1"))
    ensures EncodeComponent(Ascii("sess-2")) == Some(Ascii("sess-2"))
    ensures EncodeComponent(Ascii("3")) == Some(Ascii("3"))
  {
    hide EncodeComponent;
    PlainTextStays(Ascii("ws-1"));
    PlainTextStays(Ascii("sess-2"));
    PlainTextStays(Ascii("3"));
  }

  lemma BranchEncodes()
    ensures EncodeComponent(Ascii("branch:3")) == Some(Ascii("branch%3A3"))
  {
    hide EncodeComponent, Prepend;
    PlainWords();
    PlainPrefix(Ascii("branch"), [0x3A] + Ascii("3"));
    AsciiThen(0x3A, Ascii("3"));
    Colon();
    Prepended(Ascii("%3A"), Ascii("3"));
    Prepended(Ascii("branch"), Ascii("%3A") + Ascii("3"));
    hide Ascii;
    assert Ascii(":") == [0x3A];
    AsciiConcat(":", "3");
    AsciiConcat("branch", ":" + "3");
    AsciiConcat("%3A", "3");
    AsciiConcat("branch", "%3A" + "3");
    assert "branch" + (":" + "3") == "branch:3" && "branch" + ("%3A" + "3") == "branch%3A3";
  }

  lemma Colon()
    ensures !Unreserved(0x3A) && EscapeByte(0x3A) == Ascii("%3A")
  {
  }

  lemma Prepended(front: Text, rest: Text)
    ensures Prepend(front, Some(rest)) == Some(front + rest)
  {
  }
}

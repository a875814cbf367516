/** Execution ids: entity id, tag and primary key with NULs between them, none of them escaped. */
module ExecId {
  import opened Wrappers
  import opened Utf16
  import opened Separators

  datatype Components = Components(entityId: Text, tag: Text, primaryKey: Text)

  function Encode(c: Components): Text {
    c.entityId + [NUL] + c.tag + [NUL] + c.primaryKey
  }

  function Decode(execId: Text): Components {
    match IndexOfNul(execId, 0)
    case None => Components(execId, execId, execId)
    case Some(first) =>
      match IndexOfNul(execId, first + 1)
      case None => Components(execId[..first], execId[first + 1..], execId)
      case Some(second) => Components(execId[..first], execId[first + 1..second], execId[second + 1..])
  }

  lemma EncodeAt(c: Components)
    ensures var s, first, second := Encode(c), |c.entityId|, |c.entityId| + 1 + |c.tag|;
            && second < |s| && s[first] == NUL && s[second] == NUL
            && s[..first] == c.entityId && s[first + 1..second] == c.tag && s[second + 1..] == c.primaryKey
  {
  }

  /** An id reads back exactly when its entity id and its tag hold no NUL. */
  lemma DecodeUndoesEncode(c: Components)
    ensures Decode(Encode(c)) == c <==> NUL !in c.entityId && NUL !in c.tag
  {
    var s, first, second := Encode(c), |c.entityId|, |c.entityId| + 1 + |c.tag|;
    EncodeAt(c);
    if NUL !in c.entityId && NUL !in c.tag {
      assert s[0..first] == c.entityId;
      FirstNul(s, 0, first);
      FirstNul(s, first + 1, second);
    } else {
      DecodedPartsHoldNoNul(c);
    }
  }

  lemma DecodedPartsHoldNoNul(c: Components)
    ensures NUL !in Decode(Encode(c)).entityId && NUL !in Decode(Encode(c)).tag
  {
    var s, first, second := Encode(c), |c.entityId|, |c.entityId| + 1 + |c.tag|;
    EncodeAt(c);
    NoLaterThan(s, 0, first);
    var found := IndexOfNul(s, 0).value;
    assert s[0..found] == s[..found];
    NoLaterThan(s, found + 1, second);
  }

  /**
   * Without a NUL all three parts are the id itself; with one, the id is split
   * there and is its own primary key; otherwise it is split at the first two.
   */
  lemma DecodeForms(before: Text, between: Text, rest: Text)
    requires NUL !in before
    ensures Decode(before) == Components(before, before, before)
    ensures NUL !in between ==>
              Decode(before + [NUL] + between) == Components(before, between, before + [NUL] + between)
    ensures NUL !in between ==>
              Decode(before + [NUL] + between + [NUL] + rest) == Components(before, between, rest)
  {
    NotFound(before);
    if NUL !in between {
      OneNul(before, between);
      DecodeUndoesEncode(Components(before, between, rest));
    }
  }

  lemma NotFound(s: Text)
    requires NUL !in s
    ensures IndexOfNul(s, 0) == None
  {
  }

  lemma OneNul(before: Text, between: Text)
    requires NUL !in before && NUL !in between
    ensures Decode(before + [NUL] + between) == Components(before, between, before + [NUL] + between)
  {
    var s, at := before + [NUL] + between, |before|;
    assert s[0..at] == before && s[..at] == before && s[at + 1..] == between;
    FirstNul(s, 0, at);
  }

  /** A text is the id of what it decodes to exactly when it holds two NULs or more. */
  lemma EncodeUndoesDecode(s: Text)
    ensures Encode(Decode(s)) == s <==> CountNul(s) >= 2
  {
    match IndexOfNul(s, 0)
    case None =>
      assert s[0..] == s;
      CountNone(s);
    case Some(first) =>
      assert s[0..first] == s[..first];
      CountSplits(s, first);
      CountNone(s[first + 1..]);
      match IndexOfNul(s, first + 1)
      case None =>
      case Some(second) =>
        assert s[first + 1..][second - (first + 1)] == NUL;
        Reassembles(s, first, second);
  }

  lemma Reassembles(s: Text, first: nat, second: nat)
    requires first < second < |s| && s[first] == NUL && s[second] == NUL
    ensures Encode(Components(s[..first], s[first + 1..second], s[second + 1..])) == s
  {
  }

  /** Two executions share an id only when they are the same, unless a NUL stands in an entity id or a tag. */
  lemma EncodeInjective(c: Components, d: Components)
    requires NUL !in c.entityId && NUL !in c.tag && NUL !in d.entityId && NUL !in d.tag
    requires Encode(c) == Encode(d)
    ensures c == d
  {
    DecodeUndoesEncode(c);
    DecodeUndoesEncode(d);
  }
}

/**
 * Object keys: the sort order of `Array.prototype.sort`, and the own-key order of
 * JavaScript objects (section 10.1.11 of ECMA-262), where array-index keys come
 * first, in numeric order, then the other keys in insertion order.
 */
module OwnKeyOrder {
  import opened Wrappers
  import opened Utf16
  import opened Texts
  import opened Decimals
  import opened JsonText

  // --- Keys -----------------------------------------------------------------------

  const PROTO: Text := Ascii("__proto__")

  /** The order of `Array.prototype.sort` on strings: by UTF-16 code units. */
  predicate Less(a: Text, b: Text) {
    b != [] && (a == [] || a[0] < b[0] || (a[0] == b[0] && Less(a[1..], b[1..])))
  }

  /** `a` and `b` agree up to `i`, where `a` has the smaller code unit. */
  predicate SmallerAt(a: Text, b: Text, i: nat) {
    i < |a| && i < |b| && a[..i] == b[..i] && a[i] < b[i]
  }

  /** The order by UTF-16 code units: a proper prefix comes first, and otherwise the first difference decides. */
  ghost predicate CodeUnitsBefore(a: Text, b: Text) {
    a < b || exists i: nat :: SmallerAt(a, b, i)
  }

  lemma {:induction false} LessIsCodeUnitOrder(a: Text, b: Text)
    ensures Less(a, b) <==> CodeUnitsBefore(a, b)
  {
    if a == [] || b == [] {
    } else if a[0] == b[0] {
      var a', b' := a[1..], b[1..];
      LessIsCodeUnitOrder(a', b');
      assert a == [a[0]] + a' && b == [b[0]] + b';
      assert a < b <==> a' < b';
      forall i: nat | SmallerAt(a', b', i)
        ensures SmallerAt(a, b, i + 1)
      {
        assert a[..i + 1] == [a[0]] + a'[..i] && b[..i + 1] == [b[0]] + b'[..i];
      }
      forall i: nat | SmallerAt(a, b, i)
        ensures i > 0 && SmallerAt(a', b', i - 1)
      {
        assert a'[..i - 1] == a[..i][1..] && b'[..i - 1] == b[..i][1..];
      }
      if exists i: nat :: SmallerAt(a, b, i) {
        var i: nat :| SmallerAt(a, b, i);
        assert SmallerAt(a', b', i - 1);
      }
    } else {
      if a[0] < b[0] {
        assert SmallerAt(a, b, 0);
      }
      forall i: nat | SmallerAt(a, b, i)
        ensures i == 0
      {
        AgreeAtFront(a, b, i);
      }
    }
  }

  lemma AgreeAtFront(a: Text, b: Text, i: nat)
    requires SmallerAt(a, b, i)
    ensures i > 0 ==> a[0] == b[0]
  {
    if i > 0 {
      assert a[..i][0] == b[..i][0];
    }
  }

  lemma {:induction false} LessTransitive(a: Text, b: Text, c: Text)
    requires Less(a, b) && Less(b, c)
    ensures Less(a, c)
  {
    if a != [] && a[0] == b[0] == c[0] {
      LessTransitive(a[1..], b[1..], c[1..]);
    }
  }

  lemma {:induction false} LessTotal(a: Text, b: Text)
    ensures a == b || Less(a, b) || Less(b, a)
    ensures !(Less(a, b) && Less(b, a)) && (a == b ==> !Less(a, b))
  {
    if a != [] && b != [] && a[0] == b[0] {
      LessTotal(a[1..], b[1..]);
      assert a == [a[0]] + a[1..] && b == [b[0]] + b[1..];
    }
  }

  predicate Ascending(keys: seq<Text>) {
    forall i, j :: 0 <= i < j < |keys| ==> Less(keys[i], keys[j])
  }

  predicate Distinct(keys: seq<Text>) {
    forall i, j :: 0 <= i < j < |keys| ==> keys[i] != keys[j]
  }

  function Insert(k: Text, keys: seq<Text>): (r: seq<Text>)
    ensures |r| == |keys| + 1
    ensures forall l :: l in r <==> l == k || l in keys
  {
    if keys == [] then [k]
    else if Less(keys[0], k) then
      assert keys == [keys[0]] + keys[1..];
      [keys[0]] + Insert(k, keys[1..])
    else [k] + keys
  }

  function SortKeys(keys: seq<Text>): (r: seq<Text>)
    ensures |r| == |keys|
    ensures forall l :: l in r <==> l in keys
  {
    if keys == [] then []
    else
      assert keys == [keys[0]] + keys[1..];
      Insert(keys[0], SortKeys(keys[1..]))
  }

  lemma {:induction false} InsertAscends(k: Text, keys: seq<Text>)
    requires Ascending(keys) && k !in keys
    ensures Ascending(Insert(k, keys))
  {
    if keys != [] {
      var rest := keys[1..];
      assert keys == [keys[0]] + rest;
      LessTotal(keys[0], k);
      if Less(keys[0], k) {
        InsertAscends(k, rest);
        var r := Insert(k, rest);
        forall l | l in r
          ensures Less(keys[0], l)
        {
          if l != k {
            var j :| 0 <= j < |rest| && rest[j] == l;
            assert keys[j + 1] == l;
          }
        }
      } else {
        forall j | 0 <= j < |keys|
          ensures Less(k, keys[j])
        {
          if j > 0 {
            LessTransitive(k, keys[0], keys[j]);
          }
        }
      }
    }
  }

  lemma {:induction false} SortAscends(keys: seq<Text>)
    requires Distinct(keys)
    ensures Ascending(SortKeys(keys))
  {
    if keys != [] {
      SortAscends(keys[1..]);
      assert keys[0] !in keys[1..];
      InsertAscends(keys[0], SortKeys(keys[1..]));
    }
  }

  /** Ascending sequences with the same elements are equal. */
  lemma {:induction false} AscendingUnique(a: seq<Text>, b: seq<Text>)
    requires Ascending(a) && Ascending(b)
    requires forall k :: k in a <==> k in b
    ensures a == b
  {
    if a == [] {
      if b != [] {
        HasMember(b);
      }
    } else {
      assert a[0] in b;
      assert b[0] in a;
      LessTotal(a[0], b[0]);
      assert a[0] == b[0];
      assert a == [a[0]] + a[1..] && b == [b[0]] + b[1..];
      forall k
        ensures k in a[1..] <==> k in b[1..]
      {
        TailMember(a, k);
        TailMember(b, k);
      }
      AscendingUnique(a[1..], b[1..]);
    }
  }

  lemma HasMember(a: seq<Text>)
    requires a != []
    ensures exists k :: k in a
  {
    assert a[0] in a;
  }

  lemma TailMember(a: seq<Text>, k: Text)
    requires a != [] && Ascending(a)
    ensures k in a[1..] <==> k in a && k != a[0]
  {
    LessTotal(a[0], a[0]);
    assert a == [a[0]] + a[1..];
  }

  // --- Own-key order of JavaScript objects ----------------------------------------------

  const INDEX_LIMIT: nat := 4294967295

  /** `Number(key)` for a decimal text; other texts give no index that prints back as the key. */
  function IndexOf(key: Text): Option<nat> {
    if AllDigits(key) then Some(DecimalValue(key)) else None
  }

  predicate IsArrayIndexKey(key: Text) {
    var index := IndexOf(key);
    index.Some? && index.value < INDEX_LIMIT && Decimal(index.value) == key
  }

  lemma ArrayIndexKeys(key: Text)
    ensures IsArrayIndexKey(key) <==> exists n: nat :: n < INDEX_LIMIT && key == Decimal(n)
  {
    forall n: nat | n < INDEX_LIMIT && key == Decimal(n)
      ensures IsArrayIndexKey(key)
    {
      DecimalReadsBack(n);
    }
    if IsArrayIndexKey(key) {
      assert key == Decimal(IndexOf(key).value);
    }
  }

  /** Own-key order puts `k` in front of `l` wherever they were inserted. */
  predicate Precedes(k: Text, l: Text) {
    IsArrayIndexKey(k) && (!IsArrayIndexKey(l) || IndexOf(k).value < IndexOf(l).value)
  }

  predicate NativeOrder(keys: seq<Text>) {
    forall i, j :: 0 <= i < j < |keys| ==> !Precedes(keys[j], keys[i])
  }

  function Keys(members: seq<Member>): (keys: seq<Text>)
    ensures |keys| == |members|
  {
    seq(|members|, i requires 0 <= i < |members| => members[i].key)
  }

  /** Defines an own property: replaced in place, or put where own-key order wants a new key. */
  function Define(members: seq<Member>, key: Text, value: Json): seq<Member> {
    if members == [] then [Member(key, value)]
    else if members[0].key == key then [Member(key, value)] + members[1..]
    else if Precedes(key, members[0].key) then [Member(key, value)] + members
    else [members[0]] + Define(members[1..], key, value)
  }

  /** Plain assignment: on `__proto__` it would set the prototype and define no own property. */
  function Assign(members: seq<Member>, key: Text, value: Json): seq<Member> {
    if key == PROTO then members else Define(members, key, value)
  }

  /** The object that inserting the members in this order builds. */
  function Build(members: seq<Member>): seq<Member> {
    if members == [] then []
    else
      var last := members[|members| - 1];
      Define(Build(members[..|members| - 1]), last.key, last.value)
  }

  lemma KeysOfCons(m: Member, members: seq<Member>)
    ensures Keys([m] + members) == [m.key] + Keys(members)
  {
  }

  lemma {:induction false} DefineMembers(members: seq<Member>, key: Text, value: Json)
    requires key !in Keys(members)
    ensures |Define(members, key, value)| == |members| + 1
    ensures forall m :: m in Define(members, key, value) <==> m == Member(key, value) || m in members
  {
    if members != [] {
      assert members[0].key == Keys(members)[0];
      assert Keys(members)[1..] == Keys(members[1..]);
      assert members == [members[0]] + members[1..];
      DefineMembers(members[1..], key, value);
    }
  }

  lemma MemberKey(members: seq<Member>, m: Member)
    requires m in members
    ensures m.key in Keys(members)
  {
    var i :| 0 <= i < |members| && members[i] == m;
    assert Keys(members)[i] == m.key;
  }

  lemma ConsDistinct(k: Text, keys: seq<Text>)
    ensures Distinct([k] + keys) <==> Distinct(keys) && k !in keys
  {
    var all := [k] + keys;
    if Distinct(all) {
      forall i, j | 0 <= i < j < |keys|
        ensures keys[i] != keys[j]
      {
        assert all[i + 1] != all[j + 1];
      }
      forall i | 0 <= i < |keys|
        ensures keys[i] != k
      {
        assert all[0] != all[i + 1];
      }
    }
  }

  lemma ConsNative(k: Text, keys: seq<Text>)
    ensures NativeOrder([k] + keys) <==> NativeOrder(keys) && forall l :: l in keys ==> !Precedes(l, k)
  {
    var all := [k] + keys;
    if NativeOrder(all) {
      forall i, j | 0 <= i < j < |keys|
        ensures !Precedes(keys[j], keys[i])
      {
        assert !Precedes(all[j + 1], all[i + 1]);
      }
      forall l | l in keys
        ensures !Precedes(l, k)
      {
        var i :| 0 <= i < |keys| && keys[i] == l;
        assert !Precedes(all[i + 1], all[0]);
      }
    }
  }

  lemma KeyMember(members: seq<Member>, k: Text)
    ensures k in Keys(members) <==> exists m :: m in members && m.key == k
  {
    if k in Keys(members) {
      var i :| 0 <= i < |members| && Keys(members)[i] == k;
      assert members[i] in members;
    }
    forall m | m in members && m.key == k {
      MemberKey(members, m);
    }
  }

  lemma DefineKeys(members: seq<Member>, key: Text, value: Json, k: Text)
    requires key !in Keys(members)
    ensures k in Keys(Define(members, key, value)) <==> k == key || k in Keys(members)
  {
    DefineMembers(members, key, value);
    KeyMember(members, k);
    KeyMember(Define(members, key, value), k);
    assert Member(key, value) in Define(members, key, value);
  }

  lemma {:induction false} DefineKeepsDistinct(members: seq<Member>, key: Text, value: Json)
    requires Distinct(Keys(members)) && key !in Keys(members)
    ensures Distinct(Keys(Define(members, key, value)))
  {
    KeysOfCons(Member(key, value), members);
    ConsDistinct(key, Keys(members));
    if members != [] {
      var rest := members[1..];
      assert members == [members[0]] + rest;
      KeysOfCons(members[0], rest);
      ConsDistinct(members[0].key, Keys(rest));
      if !Precedes(key, members[0].key) {
        var r := Define(rest, key, value);
        DefineKeepsDistinct(rest, key, value);
        DefineKeys(rest, key, value, members[0].key);
        KeysOfCons(members[0], r);
        ConsDistinct(members[0].key, Keys(r));
      }
    }
  }

  lemma {:induction false} DefineKeepsNativeOrder(members: seq<Member>, key: Text, value: Json)
    requires NativeOrder(Keys(members)) && key !in Keys(members)
    ensures NativeOrder(Keys(Define(members, key, value)))
  {
    KeysOfCons(Member(key, value), members);
    ConsNative(key, Keys(members));
    if members != [] {
      var rest := members[1..];
      assert members == [members[0]] + rest;
      KeysOfCons(members[0], rest);
      ConsNative(members[0].key, Keys(rest));
      if !Precedes(key, members[0].key) {
        var r := Define(rest, key, value);
        DefineKeepsNativeOrder(rest, key, value);
        forall l | l in Keys(r)
          ensures !Precedes(l, members[0].key)
        {
          DefineKeys(rest, key, value, l);
        }
        KeysOfCons(members[0], r);
        ConsNative(members[0].key, Keys(r));
      }
    }
  }

  lemma {:induction false} BuildMembers(members: seq<Member>)
    requires Distinct(Keys(members))
    ensures |Build(members)| == |members|
    ensures forall m :: m in Build(members) <==> m in members
    ensures Distinct(Keys(Build(members))) && NativeOrder(Keys(Build(members)))
  {
    if members != [] {
      var front, last := members[..|members| - 1], members[|members| - 1];
      assert Keys(front) == Keys(members)[..|members| - 1];
      assert members == front + [last];
      BuildMembers(front);
      assert Keys(members)[|members| - 1] == last.key;
      forall i | 0 <= i < |Build(front)|
        ensures Keys(Build(front))[i] != last.key
      {
        MemberKey(front, Build(front)[i]);
      }
      DefineMembers(Build(front), last.key, last.value);
      DefineKeepsDistinct(Build(front), last.key, last.value);
      DefineKeepsNativeOrder(Build(front), last.key, last.value);
    }
  }

  lemma {:induction false} DefineAppends(members: seq<Member>, key: Text, value: Json)
    requires key !in Keys(members)
    requires forall i :: 0 <= i < |members| ==> !Precedes(key, members[i].key)
    ensures Define(members, key, value) == members + [Member(key, value)]
  {
    if members != [] {
      assert members[0].key == Keys(members)[0];
      assert Keys(members)[1..] == Keys(members[1..]);
      DefineAppends(members[1..], key, value);
    }
  }

  lemma {:induction false} NativeOrderBuildsItself(members: seq<Member>)
    requires Distinct(Keys(members)) && NativeOrder(Keys(members))
    ensures Build(members) == members
  {
    if members != [] {
      var n := |members| - 1;
      var front, last := members[..n], members[n];
      assert Keys(front) == Keys(members)[..n];
      NativeOrderBuildsItself(front);
      assert Keys(members)[n] == last.key;
      forall i | 0 <= i < n
        ensures !Precedes(last.key, front[i].key)
      {
        assert Keys(members)[i] == front[i].key;
      }
      DefineAppends(front, last.key, last.value);
      assert members == front + [last];
    }
  }

  /** Inserting distinct keys in some order gives that own-key order exactly when it is native. */
  lemma InsertionOrderKept(members: seq<Member>)
    requires Distinct(Keys(members))
    ensures Keys(Build(members)) == Keys(members) <==> NativeOrder(Keys(members))
    ensures NativeOrder(Keys(members)) ==> Build(members) == members
  {
    BuildMembers(members);
    if NativeOrder(Keys(members)) {
      NativeOrderBuildsItself(members);
    }
  }

  /** Plain assignment would lose a `__proto__` member; defining it keeps it. */
  lemma AssignmentLosesProto(members: seq<Member>, value: Json)
    requires PROTO !in Keys(members)
    ensures Assign(members, Ascii("__proto__"), value) == members
    ensures Ascii("__proto__") in Keys(Define(members, Ascii("__proto__"), value))
  {
    DefineKeys(members, PROTO, value, PROTO);
  }
}

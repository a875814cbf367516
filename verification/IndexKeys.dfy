/**
 * Which keys are array indices, told by their characters alone, and what own-key
 * order does with them.
 */
module IndexKeys {
  import opened Wrappers
  import opened Utf16
  import opened Texts
  import opened Decimals
  import opened JsonText
  import opened OwnKeyOrder

  // --- Digits and their value ----------------------------------------------------------

  function Pow10(k: nat): (p: nat)
    ensures p >= 1
  {
    if k == 0 then 1 else 10 * Pow10(k - 1)
  }

  predicate Digits(t: Text) {
    forall i :: 0 <= i < |t| ==> Digit(t[i])
  }

  /** The first digit weighs most. */
  lemma {:induction false} ValueFromFront(t: Text)
    requires t != [] && Digits(t)
    ensures DecimalValue(t) == (t[0] - 0x30) * Pow10(|t| - 1) + DecimalValue(t[1..])
    ensures DecimalValue(t[1..]) < Pow10(|t| - 1)
    decreases |t|
  {
    var last := |t| - 1;
    assert Digit(t[last]);
    if last == 0 {
    } else {
      var front := t[..last];
      ValueFromFront(front);
      assert t[1..][..last - 1] == front[1..] && t[1..][last - 1] == t[last];
      TenTimes(t[0] - 0x30, Pow10(last - 1), DecimalValue(front[1..]));
    }
  }

  lemma TenTimes(d: int, p: int, v: int)
    ensures (d * p + v) * 10 == d * (10 * p) + v * 10
  {
  }

  lemma ValueBounds(t: Text)
    requires t != [] && Digits(t)
    ensures DecimalValue(t) < Pow10(|t|)
    ensures t[0] != 0x30 ==> DecimalValue(t) >= Pow10(|t| - 1)
  {
    ValueFromFront(t);
    assert Digit(t[0]);
    Scales(t[0] - 0x30, 9, Pow10(|t| - 1));
    Scales(1, t[0] - 0x30, Pow10(|t| - 1));
  }

  lemma Scales(c: int, d: int, p: nat)
    ensures c <= d ==> c * p <= d * p
  {
  }

  /** Texts of one length compare as their values. */
  lemma {:induction false} SameLengthOrder(a: Text, b: Text)
    requires Digits(a) && Digits(b) && |a| == |b|
    ensures Less(a, b) <==> DecimalValue(a) < DecimalValue(b)
    ensures a == b <==> DecimalValue(a) == DecimalValue(b)
    decreases |a|
  {
    if a != [] {
      ValueFromFront(a);
      ValueFromFront(b);
      SameLengthOrder(a[1..], b[1..]);
      assert a == [a[0]] + a[1..] && b == [b[0]] + b[1..];
      var x, y, p := a[0] - 0x30, b[0] - 0x30, Pow10(|a| - 1);
      Weighs(x, y, p, DecimalValue(a[1..]), DecimalValue(b[1..]));
    }
  }

  lemma Weighs(x: int, y: int, p: nat, v: nat, w: nat)
    requires v < p && w < p
    ensures x < y ==> x * p + v < y * p + w
    ensures x > y ==> x * p + v > y * p + w
  {
    Scales(x + 1, y, p);
    Scales(y + 1, x, p);
    assert (x + 1) * p == x * p + p && (y + 1) * p == y * p + p;
  }

  // --- Which keys are indices ------------------------------------------------------------

  predicate NoLeadingZero(t: Text) {
    t != [] && (|t| == 1 || t[0] != 0x30)
  }

  lemma {:induction false} DecimalHasNoLeadingZero(n: nat)
    ensures NoLeadingZero(Decimal(n)) && (n > 0 ==> Decimal(n)[0] != 0x30)
  {
    if n >= 10 {
      DecimalHasNoLeadingZero(n / 10);
    }
  }

  /** A digit text prints back from its value exactly when it has no leading zero. */
  lemma {:induction false} PrintsBack(t: Text)
    requires AllDigits(t)
    ensures Decimal(DecimalValue(t)) == t <==> NoLeadingZero(t)
    decreases |t|
  {
    var last := |t| - 1;
    assert Digit(t[last]);
    if last == 0 {
      assert t == [t[0]];
    } else if t[0] == 0x30 {
      DecimalHasNoLeadingZero(DecimalValue(t));
    } else {
      var front := t[..last];
      assert AllDigits(front) && front[0] == t[0];
      PrintsBack(front);
      ValueBounds(front);
      assert t == front + [t[last]];
    }
  }

  /** Digits without a leading zero, below 2^32 - 1. */
  predicate IndexShaped(key: Text) {
    && AllDigits(key) && NoLeadingZero(key)
    && (|key| < 10 || (|key| == 10 && Less(key, Ascii("4294967295"))))
  }

  lemma LimitValue()
    ensures Digits(Ascii("4294967295")) && DecimalValue(Ascii("4294967295")) == 4294967295
  {
    var t: Text := [0x34, 0x32, 0x39, 0x34, 0x39, 0x36, 0x37, 0x32, 0x39, 0x35];
    assert Ascii("4294967295") == t;
    DecimalOfLimit();
    DecimalReadsBack(4294967295);
  }

  lemma DecimalOfLimit()
    ensures Decimal(4294967295) == [0x34, 0x32, 0x39, 0x34, 0x39, 0x36, 0x37, 0x32, 0x39, 0x35]
  {
    assert Decimal(42949) == [0x34, 0x32, 0x39, 0x34, 0x39];
    assert Decimal(429496) == [0x34, 0x32, 0x39, 0x34, 0x39, 0x36];
    assert Decimal(4294967) == [0x34, 0x32, 0x39, 0x34, 0x39, 0x36, 0x37];
    assert Decimal(42949672) == [0x34, 0x32, 0x39, 0x34, 0x39, 0x36, 0x37, 0x32];
    assert Decimal(429496729) == [0x34, 0x32, 0x39, 0x34, 0x39, 0x36, 0x37, 0x32, 0x39];
  }

  lemma TenPowers()
    ensures Pow10(9) == 1_000_000_000 && Pow10(10) == 10_000_000_000
  {
    assert Pow10(5) == 100_000;
    assert Pow10(9) == 1_000_000_000;
  }

  lemma {:induction false} Pow10Grows(j: nat, k: nat)
    requires j <= k
    ensures Pow10(j) <= Pow10(k)
  {
    if j < k {
      Pow10Grows(j, k - 1);
    }
  }

  /** The array-index keys, read off their characters. */
  lemma IndexKeysByShape(key: Text)
    ensures IsArrayIndexKey(key) <==> IndexShaped(key)
  {
    if AllDigits(key) {
      PrintsBack(key);
      if NoLeadingZero(key) {
        BelowLimit(key);
      }
    }
  }

  lemma BelowLimit(key: Text)
    requires AllDigits(key) && NoLeadingZero(key)
    ensures DecimalValue(key) < INDEX_LIMIT <==> |key| < 10 || (|key| == 10 && Less(key, Ascii("4294967295")))
  {
    hide DecimalValue, Pow10, Less;
    ValueBounds(key);
    TenPowers();
    if |key| < 10 {
      Pow10Grows(|key|, 9);
    } else if |key| == 10 {
      LimitValue();
      SameLengthOrder(key, Ascii("4294967295"));
    } else {
      Pow10Grows(10, |key| - 1);
    }
  }

  /** Own-key order puts index keys first, shorter before longer and by digits within one length. */
  lemma PrecedesByShape(k: Text, l: Text)
    ensures Precedes(k, l) <==>
            IndexShaped(k) && (!IndexShaped(l) || |k| < |l| || (|k| == |l| && Less(k, l)))
  {
    IndexKeysByShape(k);
    IndexKeysByShape(l);
    if IndexShaped(k) && IndexShaped(l) {
      hide DecimalValue, Pow10, Less, IndexShaped;
      IndexOrder(k, l);
    }
  }

  lemma IndexOrder(k: Text, l: Text)
    requires AllDigits(k) && AllDigits(l) && NoLeadingZero(k) && NoLeadingZero(l)
    ensures DecimalValue(k) < DecimalValue(l) <==> |k| < |l| || (|k| == |l| && Less(k, l))
  {
    if |k| == |l| {
      SameLengthOrder(k, l);
    } else if |k| < |l| {
      LongerIsMore(k, l);
    } else {
      LongerIsMore(l, k);
    }
  }

  lemma LongerIsMore(k: Text, l: Text)
    requires AllDigits(k) && AllDigits(l) && NoLeadingZero(l) && |k| < |l|
    ensures DecimalValue(k) < DecimalValue(l)
  {
    hide DecimalValue, Pow10;
    ValueBounds(k);
    ValueBounds(l);
    Pow10Grows(|k|, |l| - 1);
  }

  /** "10" sorts before "9" by code units, and after it in own-key order. */
  lemma TenBeforeNine()
    ensures SortKeys([Ascii("9"), Ascii("10")]) == [Ascii("10"), Ascii("9")]
    ensures !NativeOrder([Ascii("10"), Ascii("9")])
  {
    var nine, ten := Ascii("9"), Ascii("10");
    assert Less(ten, nine);
    SortTwo(nine, ten);
    PrecedesByShape(nine, ten);
    assert IndexShaped(nine) && IndexShaped(ten);
    var keys := [ten, nine];
    assert Precedes(keys[1], keys[0]);
  }

  lemma SortTwo(a: Text, b: Text)
    requires Less(b, a)
    ensures SortKeys([a, b]) == [b, a]
  {
    var keys, last, none: seq<Text> := [a, b], [b], [];
    assert keys[1..] == last && last[1..] == none;
    assert SortKeys(last) == Insert(b, none);
    assert SortKeys(keys) == Insert(a, SortKeys(last));
    assert Insert(a, last) == [b] + Insert(a, none);
  }

  // --- What insertion does to the keys ------------------------------------------------------

  /** The keys that are no array indices, in the order they stand. */
  function Others(keys: seq<Text>): seq<Text> {
    if keys == [] then []
    else (if IsArrayIndexKey(keys[0]) then [] else [keys[0]]) + Others(keys[1..])
  }

  lemma {:induction false} OthersSnoc(keys: seq<Text>, k: Text)
    ensures Others(keys + [k]) == Others(keys) + (if IsArrayIndexKey(k) then [] else [k])
  {
    hide IsArrayIndexKey;
    if keys == [] {
      assert keys + [k] == [k] && [k][1..] == [];
    } else {
      assert (keys + [k])[1..] == keys[1..] + [k];
      OthersSnoc(keys[1..], k);
    }
  }

  /** Defining a new key leaves the other non-index keys as they stand, and a non-index key comes after them. */
  lemma {:induction false} DefineOthers(members: seq<Member>, key: Text, value: Json)
    requires key !in Keys(members)
    ensures Others(Keys(Define(members, key, value)))
            == Others(Keys(members)) + (if IsArrayIndexKey(key) then [] else [key])
  {
    hide IsArrayIndexKey;
    if members == [] {
      assert Keys([Member(key, value)]) == [key] && [key][1..] == [];
    } else {
      var m, rest := members[0], members[1..];
      assert members == [m] + rest;
      KeysOfCons(m, rest);
      ConsOthers(m.key, Keys(rest));
      if Precedes(key, m.key) {
        KeysOfCons(Member(key, value), members);
        ConsOthers(key, Keys(members));
        assert IsArrayIndexKey(key);
      } else {
        assert Keys(members)[0] == m.key;
        DefineOthers(rest, key, value);
        KeysOfCons(m, Define(rest, key, value));
        ConsOthers(m.key, Keys(Define(rest, key, value)));
      }
    }
  }

  lemma ConsOthers(k: Text, keys: seq<Text>)
    ensures Others([k] + keys) == (if IsArrayIndexKey(k) then [] else [k]) + Others(keys)
  {
    assert ([k] + keys)[1..] == keys;
  }

  /** Building an object keeps the non-index keys in insertion order; the index keys stand in front, by value. */
  lemma {:induction false} BuildKeepsInsertionOrder(members: seq<Member>)
    requires Distinct(Keys(members))
    ensures Others(Keys(Build(members))) == Others(Keys(members))
    ensures NativeOrder(Keys(Build(members)))
  {
    BuildMembers(members);
    if members != [] {
      var n := |members| - 1;
      var front, last := members[..n], members[n];
      assert Keys(front) == Keys(members)[..n] && Keys(members) == Keys(front) + [last.key];
      BuildMembers(front);
      BuildKeepsInsertionOrder(front);
      LastIsNew(members);
      DefineOthers(Build(front), last.key, last.value);
      OthersSnoc(Keys(front), last.key);
    }
  }

  lemma LastIsNew(members: seq<Member>)
    requires members != [] && Distinct(Keys(members))
    ensures members[|members| - 1].key !in Keys(Build(members[..|members| - 1]))
  {
    var n := |members| - 1;
    var front, last := members[..n], members[n];
    assert Keys(front) == Keys(members)[..n] && Keys(members)[n] == last.key;
    BuildMembers(front);
    KeyMember(front, last.key);
    KeyMember(Build(front), last.key);
  }
}

/**
 * Canonical JSON: an exact printer that sorts every object's keys, and a fast
 * form that orders the objects first and then relies on `JSON.stringify`.
 */
module CanonicalJson {
  import opened Wrappers
  import opened Utf16
  import opened JsonText
  import opened OwnKeyOrder

  // --- Values ---------------------------------------------------------------------

  /** A JavaScript value: no object has two properties with the same key. */
  predicate JsValue(j: Json)
    decreases j
  {
    match j
    case Arr(items) => forall i :: 0 <= i < |items| ==> JsValue(items[i])
    case Obj(members) =>
      Distinct(Keys(members)) && forall i :: 0 <= i < |members| ==> JsValue(members[i].value)
    case _ => true
  }

  /** No leaf is a non-finite number. */
  predicate AllFinite(j: Json)
    decreases j
  {
    match j
    case Num(n) => !n.NonFinite?
    case Arr(items) => forall i :: 0 <= i < |items| ==> AllFinite(items[i])
    case Obj(members) => forall i :: 0 <= i < |members| ==> AllFinite(members[i].value)
    case _ => true
  }

  /** The property `key` of an object. */
  function Lookup(members: seq<Member>, key: Text): (value: Json)
    requires key in Keys(members)
    ensures Member(key, value) in members
  {
    if members[0].key == key then members[0].value
    else
      assert members == [members[0]] + members[1..];
      KeysOfCons(members[0], members[1..]);
      Lookup(members[1..], key)
  }

  lemma {:induction false} LookupFinds(members: seq<Member>, m: Member)
    requires Distinct(Keys(members)) && m in members
    ensures m.key in Keys(members) && Lookup(members, m.key) == m.value
  {
    MemberKey(members, m);
    if members[0] != m {
      assert members == [members[0]] + members[1..];
      KeysOfCons(members[0], members[1..]);
      ConsDistinct(members[0].key, Keys(members[1..]));
      MemberKey(members[1..], m);
      LookupFinds(members[1..], m);
    }
  }

  // --- The canonical text -------------------------------------------------------------

  /** The value with the members of every object in sorted key order. */
  function Sort(j: Json): Json
    decreases j
  {
    match j
    case Arr(items) => Arr(SortItems(items))
    case Obj(members) => Obj(SortMembers(members))
    case _ => j
  }

  function SortItems(items: seq<Json>): (r: seq<Json>)
    ensures |r| == |items|
    decreases items
  {
    seq(|items|, i requires 0 <= i < |items| => Sort(items[i]))
  }

  function SortMembers(members: seq<Member>): (r: seq<Member>)
    ensures |r| == |members|
    decreases members
  {
    var keys := SortKeys(Keys(members));
    seq(|keys|, i requires 0 <= i < |keys| =>
      assert keys[i] in keys;
      assert Member(keys[i], Lookup(members, keys[i])) in members;
      Member(keys[i], Sort(Lookup(members, keys[i]))))
  }

  /** The canonical text is the text of the sorted value; a non-finite number has none. */
  function Canonical(j: Json): Option<Text> {
    if AllFinite(j) then Some(Stringify(Sort(j))) else None
  }

  // --- The ordered value ----------------------------------------------------------------

  /** The value rebuilt by inserting the members of every object in sorted key order. */
  function Ordered(j: Json): Json
    decreases j
  {
    match j
    case Arr(items) => Arr(OrderedItems(items))
    case Obj(members) => Obj(Build(OrderedMembers(members)))
    case _ => j
  }

  function OrderedItems(items: seq<Json>): (r: seq<Json>)
    ensures |r| == |items|
    decreases items
  {
    seq(|items|, i requires 0 <= i < |items| => Ordered(items[i]))
  }

  /** The insertions that rebuild an object. */
  function OrderedMembers(members: seq<Member>): (r: seq<Member>)
    ensures |r| == |members|
    decreases members
  {
    var keys := SortKeys(Keys(members));
    seq(|keys|, i requires 0 <= i < |keys| =>
      assert keys[i] in keys;
      assert Member(keys[i], Lookup(members, keys[i])) in members;
      Member(keys[i], Ordered(Lookup(members, keys[i]))))
  }

  /** Some object in the value has sorted keys that are not in own-key order. */
  predicate AnyConflict(j: Json)
    decreases j
  {
    match j
    case Arr(items) => exists i :: 0 <= i < |items| && AnyConflict(items[i])
    case Obj(members) =>
      !NativeOrder(SortKeys(Keys(members))) || exists i :: 0 <= i < |members| && AnyConflict(members[i].value)
    case _ => false
  }

  lemma SortedKeyHolds(members: seq<Member>, i: nat)
    requires i < |members|
    ensures SortKeys(Keys(members))[i] in Keys(members)
  {
    assert SortKeys(Keys(members))[i] in SortKeys(Keys(members));
  }

  lemma LookupIsMember(members: seq<Member>, key: Text) returns (i: nat)
    requires key in Keys(members)
    ensures i < |members| && members[i] == Member(key, Lookup(members, key))
    ensures Lookup(members, key) < Obj(members)
  {
    i :| 0 <= i < |members| && members[i] == Member(key, Lookup(members, key));
  }

  /** Without a conflict the rebuilt value is the sorted value. */
  lemma {:induction false} OrderedWithoutConflict(j: Json)
    requires JsValue(j) && !AnyConflict(j)
    ensures Ordered(j) == Sort(j)
    decreases j
  {
    match j
    case Arr(items) =>
      forall i | 0 <= i < |items|
        ensures OrderedItems(items)[i] == SortItems(items)[i]
      {
        OrderedWithoutConflict(items[i]);
      }
      assert OrderedItems(items) == SortItems(items);
    case Obj(members) =>
      var keys := SortKeys(Keys(members));
      forall i | 0 <= i < |members|
        ensures OrderedMembers(members)[i] == SortMembers(members)[i]
      {
        SortedKeyHolds(members, i);
        var at := LookupIsMember(members, keys[i]);
        OrderedWithoutConflict(members[at].value);
      }
      assert OrderedMembers(members) == SortMembers(members);
      SortAscends(Keys(members));
      assert Keys(OrderedMembers(members)) == keys;
      AscendingDistinct(keys);
      NativeOrderBuildsItself(OrderedMembers(members));
    case _ =>
  }

  lemma AscendingDistinct(keys: seq<Text>)
    requires Ascending(keys)
    ensures Distinct(keys)
  {
    forall i, j | 0 <= i < j < |keys|
      ensures keys[i] != keys[j]
    {
      LessTotal(keys[i], keys[j]);
    }
  }

  /** Rebuilding an object keeps its keys; under each key stands the rebuilt value. */
  lemma RebuiltObject(members: seq<Member>)
    requires Distinct(Keys(members))
    ensures var built := Build(OrderedMembers(members));
            && |built| == |members| && Distinct(Keys(built)) && SortKeys(Keys(built)) == SortKeys(Keys(members))
            && (forall k :: k in Keys(built) <==> k in Keys(members))
            && (forall k :: k in Keys(members) ==> Lookup(built, k) == Ordered(Lookup(members, k)))
  {
    var keys, entries := SortKeys(Keys(members)), OrderedMembers(members);
    var built := Build(entries);
    SortAscends(Keys(members));
    assert Keys(entries) == keys;
    AscendingDistinct(keys);
    BuildMembers(entries);
    forall k
      ensures k in Keys(built) <==> k in Keys(members)
    {
      KeyMember(built, k);
      KeyMember(entries, k);
    }
    SortAscends(Keys(built));
    AscendingUnique(SortKeys(Keys(built)), keys);
    forall k | k in Keys(members)
      ensures Lookup(built, k) == Ordered(Lookup(members, k))
    {
      var i :| 0 <= i < |keys| && keys[i] == k;
      assert entries[i] == Member(k, Ordered(Lookup(members, k)));
      LookupFinds(built, entries[i]);
    }
  }

  /** The rebuilt value is a value with the same sorted form. */
  lemma {:induction false} OrderedSortsTheSame(j: Json)
    requires JsValue(j)
    ensures JsValue(Ordered(j)) && Sort(Ordered(j)) == Sort(j)
    ensures AllFinite(Ordered(j)) == AllFinite(j)
    decreases j
  {
    match j
    case Arr(items) =>
      var ordered := OrderedItems(items);
      forall i | 0 <= i < |items|
        ensures JsValue(ordered[i]) && Sort(ordered[i]) == Sort(items[i]) && AllFinite(ordered[i]) == AllFinite(items[i])
      {
        OrderedSortsTheSame(items[i]);
      }
      assert SortItems(ordered) == SortItems(items);
    case Obj(members) =>
      OrderedObjectSortsTheSame(members);
    case _ =>
  }

  lemma FiniteByKey(members: seq<Member>)
    requires Distinct(Keys(members))
    ensures AllFinite(Obj(members)) <==> forall k :: k in Keys(members) ==> AllFinite(Lookup(members, k))
  {
    forall k | k in Keys(members) && !AllFinite(Lookup(members, k))
      ensures !AllFinite(Obj(members))
    {
      var i := LookupIsMember(members, k);
    }
    forall i | 0 <= i < |members|
      ensures members[i].key in Keys(members) && Lookup(members, members[i].key) == members[i].value
    {
      LookupFinds(members, members[i]);
    }
  }

  /** Under every key the rebuilt value is a value that sorts and fails the same. */
  ghost predicate RebuiltAgrees(members: seq<Member>) {
    forall k :: k in Keys(members) ==>
      var v := Lookup(members, k);
      JsValue(Ordered(v)) && Sort(Ordered(v)) == Sort(v) && AllFinite(Ordered(v)) == AllFinite(v)
  }

  lemma RebuiltIsValue(members: seq<Member>)
    requires Distinct(Keys(members)) && RebuiltAgrees(members)
    ensures JsValue(Ordered(Obj(members)))
  {
    var built := Build(OrderedMembers(members));
    RebuiltObject(members);
    forall i | 0 <= i < |built|
      ensures JsValue(built[i].value)
    {
      LookupFinds(built, built[i]);
      assert built[i].value == Ordered(Lookup(members, built[i].key));
    }
  }

  lemma RebuiltSortsTheSame(members: seq<Member>)
    requires Distinct(Keys(members)) && RebuiltAgrees(members)
    ensures Sort(Ordered(Obj(members))) == Sort(Obj(members))
  {
    var built := Build(OrderedMembers(members));
    RebuiltObject(members);
    forall i | 0 <= i < |members|
      ensures SortMembers(built)[i] == SortMembers(members)[i]
    {
      SortedKeyHolds(members, i);
      var k := SortKeys(Keys(members))[i];
      assert Lookup(built, k) == Ordered(Lookup(members, k));
    }
    assert SortMembers(built) == SortMembers(members);
  }

  lemma RebuiltFailsTheSame(members: seq<Member>)
    requires Distinct(Keys(members)) && RebuiltAgrees(members)
    ensures AllFinite(Ordered(Obj(members))) == AllFinite(Obj(members))
  {
    RebuiltObject(members);
    FiniteByKey(members);
    FiniteByKey(Build(OrderedMembers(members)));
  }

  lemma {:induction false} OrderedObjectSortsTheSame(members: seq<Member>)
    requires JsValue(Obj(members))
    ensures JsValue(Ordered(Obj(members))) && Sort(Ordered(Obj(members))) == Sort(Obj(members))
    ensures AllFinite(Ordered(Obj(members))) == AllFinite(Obj(members))
    decreases members
  {
    forall k | k in Keys(members)
      ensures var v := Lookup(members, k);
              JsValue(Ordered(v)) && Sort(Ordered(v)) == Sort(v) && AllFinite(Ordered(v)) == AllFinite(v)
    {
      var at := LookupIsMember(members, k);
      OrderedSortsTheSame(members[at].value);
    }
    RebuiltIsValue(members);
    RebuiltSortsTheSame(members);
    RebuiltFailsTheSame(members);
  }

  // --- Which values share their text -----------------------------------------------------

  predicate IsZero(n: Number) {
    n == NegativeZero || n == Finite(ZERO)
  }

  /** Equal up to the order of members and the sign of zero. */
  ghost predicate Equivalent(a: Json, b: Json)
    decreases a
  {
    match a
    case Num(n) => b.Num? && (n == b.number || (IsZero(n) && IsZero(b.number)))
    case Arr(items) =>
      b.Arr? && |items| == |b.items| && forall i :: 0 <= i < |items| ==> Equivalent(items[i], b.items[i])
    case Obj(members) =>
      && b.Obj?
      && (forall k :: k in Keys(members) <==> k in Keys(b.members))
      && (forall k :: k in Keys(members) ==>
            assert Member(k, Lookup(members, k)) in members;
            Equivalent(Lookup(members, k), Lookup(b.members, k)))
    case _ => a == b
  }

  function UnsignedNumber(n: Number): Number {
    if n == NegativeZero then Finite(ZERO) else n
  }

  /** The value with every negative zero replaced by zero. */
  function Unsigned(j: Json): Json
    decreases j
  {
    match j
    case Num(n) => Num(UnsignedNumber(n))
    case Arr(items) => Arr(UnsignedItems(items))
    case Obj(members) => Obj(UnsignedMembers(members))
    case _ => j
  }

  function UnsignedItems(items: seq<Json>): seq<Json>
    decreases items
  {
    if items == [] then [] else [Unsigned(items[0])] + UnsignedItems(items[1..])
  }

  function UnsignedMembers(members: seq<Member>): seq<Member>
    decreases members
  {
    if members == [] then [] else [UnsignedMember(members[0])] + UnsignedMembers(members[1..])
  }

  function UnsignedMember(m: Member): Member
    decreases m
  {
    Member(m.key, Unsigned(m.value))
  }

  lemma {:induction false} UnsignedItemsAt(items: seq<Json>)
    ensures |UnsignedItems(items)| == |items|
    ensures forall i :: 0 <= i < |items| ==> UnsignedItems(items)[i] == Unsigned(items[i])
  {
    if items != [] {
      UnsignedItemsAt(items[1..]);
    }
  }

  lemma {:induction false} UnsignedMembersAt(members: seq<Member>)
    ensures |UnsignedMembers(members)| == |members|
    ensures forall i :: 0 <= i < |members| ==> UnsignedMembers(members)[i] == UnsignedMember(members[i])
  {
    if members != [] {
      UnsignedMembersAt(members[1..]);
    }
  }

  /** The sign of zero is not printed. */
  lemma {:induction false} UnsignedPrintsTheSame(j: Json)
    ensures Stringify(Unsigned(j)) == Stringify(j)
    decreases j, 0
  {
    match j
    case Arr(items) =>
      if items != [] {
        UnsignedPrintsTheSame(items[0]);
        UnsignedRestPrintsTheSame(items[1..]);
      }
    case Obj(members) =>
      if members != [] {
        UnsignedPrintsTheSame(members[0].value);
        UnsignedMembersPrintTheSame(members[1..]);
        var unsigned := UnsignedMembers(members);
        assert unsigned[0] == UnsignedMember(members[0]) && unsigned[1..] == UnsignedMembers(members[1..]);
        assert StringifyMember(unsigned[0]) == StringifyMember(members[0]);
      }
    case _ =>
  }

  lemma {:induction false} UnsignedRestPrintsTheSame(items: seq<Json>)
    ensures StringifyRest(UnsignedItems(items)) == StringifyRest(items)
    decreases items, 0
  {
    if items != [] {
      UnsignedPrintsTheSame(items[0]);
      UnsignedRestPrintsTheSame(items[1..]);
    }
  }

  lemma {:induction false} UnsignedMembersPrintTheSame(members: seq<Member>)
    ensures StringifyMembers(UnsignedMembers(members)) == StringifyMembers(members)
    decreases members, 0
  {
    if members != [] {
      UnsignedPrintsTheSame(members[0].value);
      UnsignedMembersPrintTheSame(members[1..]);
    }
  }

  function Normal(j: Json): Json {
    Unsigned(Sort(j))
  }

  lemma {:induction false} NormalIsExact(j: Json)
    requires AllFinite(j)
    ensures Exact(Normal(j))
    decreases j
  {
    match j
    case Arr(items) =>
      UnsignedItemsAt(SortItems(items));
      forall i | 0 <= i < |items|
        ensures Exact(Unsigned(SortItems(items)[i]))
      {
        NormalIsExact(items[i]);
      }
    case Obj(members) =>
      UnsignedMembersAt(SortMembers(members));
      forall i | 0 <= i < |members|
        ensures Exact(Unsigned(SortMembers(members)[i].value))
      {
        SortedKeyHolds(members, i);
        var at := LookupIsMember(members, SortKeys(Keys(members))[i]);
        NormalIsExact(members[at].value);
      }
    case _ =>
  }

  lemma NormalItemsAt(items: seq<Json>)
    ensures Normal(Arr(items)).Arr? && |Normal(Arr(items)).items| == |items|
    ensures forall i :: 0 <= i < |items| ==> Normal(Arr(items)).items[i] == Normal(items[i])
  {
    UnsignedItemsAt(SortItems(items));
  }

  lemma NormalMembersAt(members: seq<Member>)
    ensures Normal(Obj(members)).Obj? && |Normal(Obj(members)).members| == |members|
    ensures forall i :: 0 <= i < |members| ==>
              && SortKeys(Keys(members))[i] in Keys(members)
              && Normal(Obj(members)).members[i]
                 == Member(SortKeys(Keys(members))[i], Normal(Lookup(members, SortKeys(Keys(members))[i])))
  {
    UnsignedMembersAt(SortMembers(members));
    forall i: nat | i < |members|
      ensures SortKeys(Keys(members))[i] in Keys(members)
    {
      SortedKeyHolds(members, i);
    }
  }

  lemma {:induction false} EquivalentHaveOneNormal(a: Json, b: Json)
    requires JsValue(a) && JsValue(b)
    ensures Equivalent(a, b) <==> Normal(a) == Normal(b)
    decreases a, 1
  {
    if a.Arr? && b.Arr? {
      NormalItemsAt(a.items);
      NormalItemsAt(b.items);
      if |a.items| == |b.items| {
        forall i | 0 <= i < |a.items|
          ensures Equivalent(a.items[i], b.items[i]) <==> Normal(a.items[i]) == Normal(b.items[i])
        {
          EquivalentHaveOneNormal(a.items[i], b.items[i]);
        }
        assert Equivalent(a, b) ==> Normal(a).items == Normal(b).items;
      }
    } else if a.Obj? && b.Obj? {
      EquivalentObjects(a.members, b.members);
    }
  }

  lemma {:induction false} EquivalentObjects(a: seq<Member>, b: seq<Member>)
    requires JsValue(Obj(a)) && JsValue(Obj(b))
    ensures Equivalent(Obj(a), Obj(b)) <==> Normal(Obj(a)) == Normal(Obj(b))
    decreases Obj(a), 0
  {
    var keys, keys' := SortKeys(Keys(a)), SortKeys(Keys(b));
    NormalMembersAt(a);
    NormalMembersAt(b);
    SortAscends(Keys(a));
    SortAscends(Keys(b));
    forall k | k in Keys(a) && k in Keys(b)
      ensures Equivalent(Lookup(a, k), Lookup(b, k)) <==> Normal(Lookup(a, k)) == Normal(Lookup(b, k))
    {
      var i := LookupIsMember(a, k);
      var j := LookupIsMember(b, k);
      EquivalentHaveOneNormal(a[i].value, b[j].value);
    }
    if Equivalent(Obj(a), Obj(b)) {
      AscendingUnique(keys, keys');
      assert Normal(Obj(a)).members == Normal(Obj(b)).members;
    }
    if Normal(Obj(a)) == Normal(Obj(b)) {
      assert Keys(Normal(Obj(a)).members) == keys;
      assert Keys(Normal(Obj(b)).members) == keys';
      forall k | k in Keys(a)
        ensures Equivalent(Lookup(a, k), Lookup(b, k))
      {
        var i :| 0 <= i < |keys| && keys[i] == k;
        assert Normal(Obj(a)).members[i].value == Normal(Obj(b)).members[i].value;
      }
    }
  }

  /** Two values have the same canonical text exactly when they are equivalent. */
  lemma CanonicalTextUnambiguous(a: Json, b: Json)
    requires JsValue(a) && JsValue(b) && AllFinite(a) && AllFinite(b)
    ensures Canonical(a) == Canonical(b) <==> Equivalent(a, b)
  {
    UnsignedPrintsTheSame(Sort(a));
    UnsignedPrintsTheSame(Sort(b));
    NormalIsExact(a);
    NormalIsExact(b);
    EquivalentHaveOneNormal(a, b);
    if Canonical(a) == Canonical(b) {
      StringifyInjective(Normal(a), Normal(b));
    }
  }

  /** The parser reads a canonical text back as the value's normal form, whatever follows it. */
  lemma CanonicalTextParses(j: Json, tail: Text)
    requires AllFinite(j) && Delimited(j, tail)
    ensures Canonical(j).Some? && ParseValue(Canonical(j).value + tail) == Some((Normal(j), tail))
  {
    UnsignedPrintsTheSame(Sort(j));
    NormalIsExact(j);
    ParserUndoesPrinter(Normal(j), tail);
  }

  // --- What the canonical text is a text of ------------------------------------------------

  ghost predicate InCodeUnitOrder(keys: seq<Text>) {
    forall p, q :: 0 <= p < q < |keys| ==> CodeUnitsBefore(keys[p], keys[q])
  }

  /** In every object the keys ascend by UTF-16 code units. */
  ghost predicate KeysAscend(j: Json)
    decreases j
  {
    match j
    case Arr(items) => forall i :: 0 <= i < |items| ==> KeysAscend(items[i])
    case Obj(members) =>
      && InCodeUnitOrder(Keys(members))
      && (forall i :: 0 <= i < |members| ==> KeysAscend(members[i].value))
    case _ => true
  }

  /** Equal but for the order of members. */
  ghost predicate SameButOrder(a: Json, b: Json)
    decreases a
  {
    match a
    case Arr(items) =>
      b.Arr? && |items| == |b.items| && forall i :: 0 <= i < |items| ==> SameButOrder(items[i], b.items[i])
    case Obj(members) =>
      && b.Obj? && |members| == |b.members|
      && (forall i :: 0 <= i < |members| ==>
            members[i].key in Keys(b.members) && SameButOrder(members[i].value, Lookup(b.members, members[i].key)))
    case _ => a == b
  }

  lemma SortedMember(members: seq<Member>, k: Text)
    requires Distinct(Keys(members)) && k in Keys(members)
    ensures Keys(SortMembers(members)) == SortKeys(Keys(members))
    ensures k in Keys(SortMembers(members)) && Lookup(SortMembers(members), k) == Sort(Lookup(members, k))
  {
    var keys, sorted := SortKeys(Keys(members)), SortMembers(members);
    SortedKeys(members);
    SortAscends(Keys(members));
    AscendingDistinct(keys);
    assert k in keys;
    var i :| 0 <= i < |keys| && keys[i] == k;
    assert sorted[i] == Member(k, Sort(Lookup(members, k)));
    LookupFinds(sorted, sorted[i]);
  }

  lemma SortedKeys(members: seq<Member>)
    ensures Keys(SortMembers(members)) == SortKeys(Keys(members))
  {
    assert forall i :: 0 <= i < |members| ==> SortMembers(members)[i].key == SortKeys(Keys(members))[i];
  }

  lemma AscendingIsCodeUnitOrder(keys: seq<Text>)
    requires Ascending(keys)
    ensures InCodeUnitOrder(keys)
  {
    forall p, q | 0 <= p < q < |keys|
      ensures CodeUnitsBefore(keys[p], keys[q])
    {
      LessIsCodeUnitOrder(keys[p], keys[q]);
    }
  }

  /** The value that is printed is the value given, its keys in ascending code-unit order at every depth. */
  lemma {:induction false} SortedIsTheValueInOrder(j: Json)
    requires JsValue(j)
    ensures SameButOrder(j, Sort(j)) && KeysAscend(Sort(j))
    decreases j
  {
    match j
    case Arr(items) =>
      forall i | 0 <= i < |items|
        ensures SameButOrder(items[i], Sort(items[i])) && KeysAscend(Sort(items[i]))
      {
        SortedIsTheValueInOrder(items[i]);
      }
    case Obj(members) =>
      SortAscends(Keys(members));
      AscendingIsCodeUnitOrder(SortKeys(Keys(members)));
      SortedKeys(members);
      forall i | 0 <= i < |members|
        ensures members[i].key in Keys(SortMembers(members))
        ensures SameButOrder(members[i].value, Lookup(SortMembers(members), members[i].key))
      {
        LookupFinds(members, members[i]);
        SortedMember(members, members[i].key);
        SortedIsTheValueInOrder(members[i].value);
      }
      forall i | 0 <= i < |members|
        ensures KeysAscend(SortMembers(members)[i].value)
      {
        SortedKeyHolds(members, i);
        var at := LookupIsMember(members, SortKeys(Keys(members))[i]);
        SortedIsTheValueInOrder(members[at].value);
      }
    case _ =>
  }

  /** The text is the printed value, its keys in ascending code-unit order at every depth. */
  ghost predicate PrintsInOrder(j: Json, text: Text) {
    exists k :: SameButOrder(j, k) && KeysAscend(k) && text == Stringify(k)
  }

  lemma CanonicalPrintsInOrder(j: Json)
    requires JsValue(j)
    ensures Canonical(j).Some? ==> PrintsInOrder(j, Canonical(j).value)
  {
    hide SameButOrder, KeysAscend, Stringify, Sort;
    SortedIsTheValueInOrder(j);
  }

  /** The numbers, strings, booleans and nulls of a value. */
  function Leaves(j: Json): seq<Json>
    decreases j
  {
    match j
    case Arr(items) => ItemLeaves(items)
    case Obj(members) => MemberLeaves(members)
    case _ => [j]
  }

  function ItemLeaves(items: seq<Json>): seq<Json>
    decreases items
  {
    if items == [] then [] else Leaves(items[0]) + ItemLeaves(items[1..])
  }

  function MemberLeaves(members: seq<Member>): seq<Json>
    decreases members
  {
    if members == [] then [] else MemberLeaf(members[0]) + MemberLeaves(members[1..])
  }

  function MemberLeaf(m: Member): seq<Json>
    decreases m
  {
    Leaves(m.value)
  }

  /** A value has a canonical text exactly when none of its leaves is a non-finite number. */
  lemma {:induction false} FailsOnNonFiniteLeaf(j: Json)
    ensures Canonical(j).Some? <==> Num(NonFinite) !in Leaves(j)
    decreases j
  {
    match j
    case Arr(items) => ItemsFail(items);
    case Obj(members) => MembersFail(members);
    case _ =>
  }

  lemma {:induction false} ItemsFail(items: seq<Json>)
    ensures (forall i :: 0 <= i < |items| ==> AllFinite(items[i])) <==> Num(NonFinite) !in ItemLeaves(items)
    decreases items
  {
    if items != [] {
      FailsOnNonFiniteLeaf(items[0]);
      ItemsFail(items[1..]);
      assert forall i :: 0 < i < |items| ==> items[i] == items[1..][i - 1];
    }
  }

  lemma {:induction false} MembersFail(members: seq<Member>)
    ensures (forall i :: 0 <= i < |members| ==> AllFinite(members[i].value)) <==> Num(NonFinite) !in MemberLeaves(members)
    decreases members
  {
    if members != [] {
      MemberFails(members[0]);
      MembersFail(members[1..]);
      assert forall i :: 0 < i < |members| ==> members[i] == members[1..][i - 1];
    }
  }

  lemma {:induction false} MemberFails(m: Member)
    ensures AllFinite(m.value) <==> Num(NonFinite) !in MemberLeaf(m)
    decreases m
  {
    FailsOnNonFiniteLeaf(m.value);
  }

  // --- The encoders ----------------------------------------------------------------------

  lemma RegroupSnoc(a: Text, b: Text, c: Text, d: Text)
    ensures a + (b + c + d) == a + b + c + d
  {
  }

  lemma {:induction false} StringifyRestSnoc(items: seq<Json>, last: Json)
    ensures StringifyRest(items + [last]) == StringifyRest(items) + [COMMA] + Stringify(last)
  {
    if items == [] {
      assert items + [last] == [last];
    } else {
      StringifyRestSnoc(items[1..], last);
      var all := items + [last];
      assert all[0] == items[0] && all[1..] == items[1..] + [last];
      hide Stringify;
      RegroupSnoc([COMMA] + Stringify(items[0]), StringifyRest(items[1..]), [COMMA], Stringify(last));
    }
  }

  lemma {:induction false} StringifyMembersSnoc(members: seq<Member>, last: Member)
    ensures StringifyMembers(members + [last]) == StringifyMembers(members) + [COMMA] + StringifyMember(last)
  {
    if members == [] {
      assert members + [last] == [last];
    } else {
      StringifyMembersSnoc(members[1..], last);
      var all := members + [last];
      assert all[0] == members[0] && all[1..] == members[1..] + [last];
      hide StringifyMember;
      RegroupSnoc([COMMA] + StringifyMember(members[0]), StringifyMembers(members[1..]), [COMMA], StringifyMember(last));
    }
  }

  /** The text between the brackets of an array. */
  function Inside(items: seq<Json>): Text {
    if items == [] then [] else Stringify(items[0]) + StringifyRest(items[1..])
  }

  function InsideObject(members: seq<Member>): Text {
    if members == [] then [] else StringifyMember(members[0]) + StringifyMembers(members[1..])
  }

  lemma InsideSnoc(items: seq<Json>, last: Json)
    ensures Inside(items + [last]) == Inside(items) + (if items == [] then [] else [COMMA]) + Stringify(last)
  {
    if items == [] {
      assert items + [last] == [last];
    } else {
      StringifyRestSnoc(items[1..], last);
      assert (items + [last])[1..] == items[1..] + [last];
      RegroupSnoc(Stringify(items[0]), StringifyRest(items[1..]), [COMMA], Stringify(last));
    }
  }

  lemma InsideObjectSnoc(members: seq<Member>, last: Member)
    ensures InsideObject(members + [last])
            == InsideObject(members) + (if members == [] then [] else [COMMA]) + StringifyMember(last)
  {
    if members == [] {
      assert members + [last] == [last];
    } else {
      var all := members + [last];
      StringifyMembersSnoc(members[1..], last);
      assert all[0] == members[0] && all[1..] == members[1..] + [last];
      RegroupSnoc(StringifyMember(members[0]), StringifyMembers(members[1..]), [COMMA], StringifyMember(last));
    }
  }

  /** The values under the first `i` keys are finite. */
  predicate FiniteBefore(members: seq<Member>, keys: seq<Text>, i: nat)
    requires i <= |keys|
  {
    i == 0 || (FiniteBefore(members, keys, i - 1) && keys[i - 1] in Keys(members) && AllFinite(Lookup(members, keys[i - 1])))
  }

  lemma {:induction false} FiniteBeforeMeans(members: seq<Member>, keys: seq<Text>, i: nat)
    requires i <= |keys|
    ensures FiniteBefore(members, keys, i)
            <==> forall k :: 0 <= k < i ==> keys[k] in Keys(members) && AllFinite(Lookup(members, keys[k]))
  {
    if i > 0 {
      FiniteBeforeMeans(members, keys, i - 1);
    }
  }

  lemma FiniteBeforeAll(members: seq<Member>)
    requires Distinct(Keys(members))
    ensures AllFinite(Obj(members)) <==> FiniteBefore(members, SortKeys(Keys(members)), |members|)
  {
    var keys := SortKeys(Keys(members));
    FiniteByKey(members);
    FiniteBeforeMeans(members, keys, |keys|);
    if FiniteBefore(members, keys, |members|) {
      forall k | k in Keys(members)
        ensures AllFinite(Lookup(members, k))
      {
        assert k in keys;
      }
    } else {
      var i :| 0 <= i < |keys| && !(keys[i] in Keys(members) && AllFinite(Lookup(members, keys[i])));
      SortedKeyHolds(members, i);
    }
  }

  lemma NonFiniteMember(members: seq<Member>, key: Text)
    requires key in Keys(members) && !AllFinite(Lookup(members, key))
    ensures !AllFinite(Obj(members))
  {
    var i := LookupIsMember(members, key);
  }

  /** A value under one of the first `i` keys has a conflict. */
  predicate ConflictBefore(members: seq<Member>, keys: seq<Text>, i: nat)
    requires i <= |keys|
  {
    i > 0 && (ConflictBefore(members, keys, i - 1) || (keys[i - 1] in Keys(members) && AnyConflict(Lookup(members, keys[i - 1]))))
  }

  lemma {:induction false} ConflictBeforeMeans(members: seq<Member>, keys: seq<Text>, i: nat)
    requires i <= |keys|
    ensures ConflictBefore(members, keys, i)
            <==> exists k :: 0 <= k < i && keys[k] in Keys(members) && AnyConflict(Lookup(members, keys[k]))
  {
    if i > 0 {
      ConflictBeforeMeans(members, keys, i - 1);
    }
  }

  lemma ConflictByKey(members: seq<Member>)
    requires Distinct(Keys(members))
    ensures var keys := SortKeys(Keys(members));
            AnyConflict(Obj(members)) <==> !NativeOrder(keys) || ConflictBefore(members, keys, |keys|)
  {
    var keys := SortKeys(Keys(members));
    ConflictBeforeMeans(members, keys, |keys|);
    forall i | 0 <= i < |members| && AnyConflict(members[i].value)
      ensures ConflictBefore(members, keys, |keys|)
    {
      LookupFinds(members, members[i]);
      assert members[i].key in keys;
      var k :| 0 <= k < |keys| && keys[k] == members[i].key;
    }
    forall k | 0 <= k < |keys| && keys[k] in Keys(members) && AnyConflict(Lookup(members, keys[k]))
      ensures AnyConflict(Obj(members))
    {
      var at := LookupIsMember(members, keys[k]);
    }
  }

  /** The exact printer; no result stands for the exception a non-finite number raises. */
  method CanonicalJsonStringExact(j: Json) returns (r: Option<Text>)
    requires JsValue(j)
    ensures r == Canonical(j)
    ensures r.Some? <==> Num(NonFinite) !in Leaves(j)
    ensures r.Some? ==> PrintsInOrder(j, r.value)
    decreases j
  {
    FailsOnNonFiniteLeaf(j);
    CanonicalPrintsInOrder(j);
    hide Leaves, PrintsInOrder;
    match j
    case Arr(items) => r := ExactArray(items);
    case Obj(members) => r := ExactObject(members);
    case Num(n) => r := if n.NonFinite? then None else Some(StringifyNumber(n));
    case _ => r := Some(Stringify(j));
  }

  method ExactArray(items: seq<Json>) returns (r: Option<Text>)
    requires JsValue(Arr(items))
    ensures r == Canonical(Arr(items))
    decreases items
  {
    hide Stringify, Inside, Sort;
    var output := [LEFT_BRACKET];
    var first := true;
    ghost var sorted := SortItems(items);
    ArrayTextStarts();
    for i := 0 to |items|
      invariant first <==> i == 0
      invariant forall k :: 0 <= k < i ==> AllFinite(items[k])
      invariant output == [LEFT_BRACKET] + Inside(sorted[..i])
    {
      ArrayTextStep(sorted, i, output);
      if first {
        first := false;
      } else {
        output := output + [COMMA];
      }
      var entry := CanonicalJsonStringExact(items[i]);
      if entry.None? {
        return None;
      }
      output := output + entry.value;
    }
    assert sorted[..|items|] == sorted;
    ArrayText(items);
    r := Some(output + [RIGHT_BRACKET]);
  }

  lemma ArrayTextStarts()
    ensures [LEFT_BRACKET] + Inside([]) == [LEFT_BRACKET] && [LEFT_BRACE] + InsideObject([]) == [LEFT_BRACE]
  {
  }

  lemma ArrayTextStep(sorted: seq<Json>, i: nat, output: Text)
    requires i < |sorted| && output == [LEFT_BRACKET] + Inside(sorted[..i])
    ensures (if i == 0 then output else output + [COMMA]) + Stringify(sorted[i]) == [LEFT_BRACKET] + Inside(sorted[..i + 1])
  {
    hide Stringify;
    InsideSnoc(sorted[..i], sorted[i]);
    assert sorted[..i + 1] == sorted[..i] + [sorted[i]];
    if i > 0 {
      RegroupSnoc([LEFT_BRACKET], Inside(sorted[..i]), [COMMA], Stringify(sorted[i]));
    }
  }

  lemma ArrayText(items: seq<Json>)
    ensures Stringify(Sort(Arr(items))) == [LEFT_BRACKET] + Inside(SortItems(items)) + [RIGHT_BRACKET]
  {
  }

  lemma ObjectText(members: seq<Member>)
    ensures Stringify(Sort(Obj(members))) == [LEFT_BRACE] + InsideObject(SortMembers(members)) + [RIGHT_BRACE]
  {
  }

  method ExactObject(members: seq<Member>) returns (r: Option<Text>)
    requires JsValue(Obj(members))
    ensures r == Canonical(Obj(members))
    decreases members
  {
    hide Stringify, InsideObject, Sort, AllFinite;
    var output := [LEFT_BRACE];
    var keys := SortKeys(Keys(members));
    var first := true;
    ArrayTextStarts();
    ghost var sorted := SortMembers(members);
    for i := 0 to |keys|
      invariant first <==> i == 0
      invariant FiniteBefore(members, keys, i)
      invariant output == [LEFT_BRACE] + InsideObject(sorted[..i])
    {
      ObjectTextStep(sorted, i, output);
      if first {
        first := false;
      } else {
        output := output + [COMMA];
      }
      SortedKeyHolds(members, i);
      var entry := ExactEntry(members, keys[i]);
      if entry.None? {
        NonFiniteMember(members, keys[i]);
        return None;
      }
      output := output + entry.value;
    }
    assert sorted[..|keys|] == sorted;
    FiniteBeforeAll(members);
    ObjectText(members);
    r := Some(output + [RIGHT_BRACE]);
  }

  lemma ObjectTextStep(sorted: seq<Member>, i: nat, output: Text)
    requires i < |sorted| && output == [LEFT_BRACE] + InsideObject(sorted[..i])
    ensures (if i == 0 then output else output + [COMMA]) + StringifyMember(sorted[i])
            == [LEFT_BRACE] + InsideObject(sorted[..i + 1])
  {
    InsideObjectSnoc(sorted[..i], sorted[i]);
    assert sorted[..i + 1] == sorted[..i] + [sorted[i]];
    if i > 0 {
      RegroupSnoc([LEFT_BRACE], InsideObject(sorted[..i]), [COMMA], StringifyMember(sorted[i]));
    }
  }

  method ExactEntry(members: seq<Member>, key: Text) returns (r: Option<Text>)
    requires JsValue(Obj(members)) && key in Keys(members)
    ensures r == if AllFinite(Lookup(members, key)) then Some(StringifyMember(Member(key, Sort(Lookup(members, key))))) else None
    decreases members, 0
  {
    ghost var at := LookupIsMember(members, key);
    var value := CanonicalJsonStringExact(Lookup(members, key));
    r := if value.None? then None else Some(Quote(key) + [COLON] + value.value);
  }

  /** The index a key counts as, if it is an array index. */
  function Rank(key: Text): Option<nat> {
    if IsArrayIndexKey(key) then IndexOf(key) else None
  }

  function Ranks(keys: seq<Text>): (ranks: seq<Option<nat>>)
    ensures |ranks| == |keys|
  {
    seq(|keys|, i requires 0 <= i < |keys| => Rank(keys[i]))
  }

  predicate RanksBefore(a: Option<nat>, b: Option<nat>) {
    a.Some? && (b.None? || a.value < b.value)
  }

  predicate RanksOrdered(ranks: seq<Option<nat>>, n: nat) {
    forall i, j :: 0 <= i < j < n && j < |ranks| ==> !RanksBefore(ranks[j], ranks[i])
  }

  lemma OrderByRank(keys: seq<Text>)
    ensures NativeOrder(keys) <==> RanksOrdered(Ranks(keys), |keys|)
  {
    forall i, j | 0 <= i < j < |keys|
      ensures Precedes(keys[j], keys[i]) <==> RanksBefore(Ranks(keys)[j], Ranks(keys)[i])
    {
    }
  }

  /** What the scan knows after `i` keys. */
  ghost predicate Scanned(ranks: seq<Option<nat>>, i: nat, foundNonIndex: bool, previousIndex: int) {
    && i <= |ranks|
    && RanksOrdered(ranks, i)
    && (foundNonIndex <==> exists k :: 0 <= k < i && ranks[k].None?)
    && (forall k :: 0 <= k < i && ranks[k].Some? ==> ranks[k].value <= previousIndex)
    && (previousIndex == -1 || exists k :: 0 <= k < i && ranks[k].Some? && ranks[k].value == previousIndex)
  }

  lemma ScanNonIndex(ranks: seq<Option<nat>>, i: nat, foundNonIndex: bool, previousIndex: int)
    requires Scanned(ranks, i, foundNonIndex, previousIndex) && i < |ranks| && ranks[i].None?
    ensures Scanned(ranks, i + 1, true, previousIndex)
  {
  }

  lemma ScanIndex(ranks: seq<Option<nat>>, i: nat, previousIndex: int)
    requires Scanned(ranks, i, false, previousIndex)
    requires i < |ranks| && ranks[i].Some? && ranks[i].value >= previousIndex
    ensures Scanned(ranks, i + 1, false, ranks[i].value)
  {
  }

  lemma ScanStops(ranks: seq<Option<nat>>, i: nat, foundNonIndex: bool, previousIndex: int)
    requires Scanned(ranks, i, foundNonIndex, previousIndex) && i < |ranks| && ranks[i].Some?
    requires foundNonIndex || ranks[i].value < previousIndex
    ensures !RanksOrdered(ranks, |ranks|)
  {
    var k :| 0 <= k < i && (if foundNonIndex then ranks[k].None? else ranks[k].Some? && ranks[k].value == previousIndex);
    assert RanksBefore(ranks[i], ranks[k]);
  }

  /** The scan over the sorted keys that decides against the fast form at once. */
  method HasNativeKeyOrderConflict(members: seq<Member>) returns (conflict: bool)
    ensures conflict <==> !NativeOrder(SortKeys(Keys(members)))
  {
    var keys := SortKeys(Keys(members));
    var previousIndex: int := -1;
    var foundNonIndex := false;
    ghost var ranks := Ranks(keys);
    OrderByRank(keys);
    for i := 0 to |keys|
      invariant Scanned(ranks, i, foundNonIndex, previousIndex)
    {
      assert ranks[i] == Rank(keys[i]);
      if !IsArrayIndexKey(keys[i]) {
        ScanNonIndex(ranks, i, foundNonIndex, previousIndex);
        foundNonIndex := true;
        continue;
      }
      if foundNonIndex {
        ScanStops(ranks, i, foundNonIndex, previousIndex);
        return true;
      }
      var index := IndexOf(keys[i]).value;
      if index < previousIndex {
        ScanStops(ranks, i, foundNonIndex, previousIndex);
        return true;
      }
      ScanIndex(ranks, i, previousIndex);
      previousIndex := index;
    }
    conflict := false;
  }

  class JsonOrderingState {
    var exactEncodingRequired: bool

    constructor ()
      ensures !exactEncodingRequired
    {
      exactEncodingRequired := false;
    }
  }

  /**
   * Rebuilds the value in sorted insertion order. The state ends up set exactly
   * when it was set before or some object in the value came out in another order.
   */
  method OrderJsonObject(j: Json, state: JsonOrderingState) returns (r: Option<Json>)
    requires JsValue(j)
    modifies state
    ensures r == if AllFinite(j) then Some(Ordered(j)) else None
    ensures r.Some? ==> state.exactEncodingRequired == (old(state.exactEncodingRequired) || AnyConflict(j))
    decreases j
  {
    match j
    case Arr(items) => r := OrderArray(items, state);
    case Obj(members) => r := OrderMembers(members, state);
    case Num(n) => r := if n.NonFinite? then None else Some(j);
    case _ => r := Some(j);
  }

  method OrderArray(items: seq<Json>, state: JsonOrderingState) returns (r: Option<Json>)
    requires JsValue(Arr(items))
    modifies state
    ensures r == if AllFinite(Arr(items)) then Some(Ordered(Arr(items))) else None
    ensures r.Some? ==> state.exactEncodingRequired == (old(state.exactEncodingRequired) || AnyConflict(Arr(items)))
    decreases items
  {
    var ordered: seq<Json> := [];
    for i := 0 to |items|
      invariant ordered == OrderedItems(items)[..i]
      invariant forall k :: 0 <= k < i ==> AllFinite(items[k])
      invariant state.exactEncodingRequired
                == (old(state.exactEncodingRequired) || exists k :: 0 <= k < i && AnyConflict(items[k]))
    {
      var entry := OrderJsonObject(items[i], state);
      if entry.None? {
        return None;
      }
      ordered := ordered + [entry.value];
      assert OrderedItems(items)[..i + 1] == OrderedItems(items)[..i] + [Ordered(items[i])];
    }
    assert OrderedItems(items)[..|items|] == OrderedItems(items);
    r := Some(Arr(ordered));
  }

  method OrderMembers(members: seq<Member>, state: JsonOrderingState) returns (r: Option<Json>)
    requires JsValue(Obj(members))
    modifies state
    ensures r == if AllFinite(Obj(members)) then Some(Ordered(Obj(members))) else None
    ensures r.Some? ==> state.exactEncodingRequired == (old(state.exactEncodingRequired) || AnyConflict(Obj(members)))
    decreases members, 1
  {
    var keys := SortKeys(Keys(members));
    var entries := OrderEntries(members, keys, state);
    if entries.None? {
      return None;
    }
    var ordered := entries.value;
    RebuiltObject(members);
    ConflictByKey(members);
    KeepsInsertionOrder(members);
    if !state.exactEncodingRequired {
      var differs := KeysDiffer(Keys(ordered), keys);
      if differs {
        state.exactEncodingRequired := true;
      }
    }
    r := Some(Obj(ordered));
  }

  lemma KeepsInsertionOrder(members: seq<Member>)
    requires Distinct(Keys(members))
    ensures Keys(Build(OrderedMembers(members))) == SortKeys(Keys(members)) <==> NativeOrder(SortKeys(Keys(members)))
  {
    var keys := SortKeys(Keys(members));
    SortAscends(Keys(members));
    AscendingDistinct(keys);
    assert Keys(OrderedMembers(members)) == keys;
    InsertionOrderKept(OrderedMembers(members));
  }

  lemma BuildSnoc(entries: seq<Member>, i: nat)
    requires i < |entries|
    ensures Build(entries[..i + 1]) == Define(Build(entries[..i]), entries[i].key, entries[i].value)
  {
    assert entries[..i + 1][..i] == entries[..i];
  }

  method OrderEntries(members: seq<Member>, keys: seq<Text>, state: JsonOrderingState) returns (r: Option<seq<Member>>)
    requires JsValue(Obj(members)) && keys == SortKeys(Keys(members))
    modifies state
    ensures r == if AllFinite(Obj(members)) then Some(Build(OrderedMembers(members))) else None
    ensures r.Some? ==> state.exactEncodingRequired
                        == (old(state.exactEncodingRequired) || ConflictBefore(members, keys, |keys|))
    decreases members, 0
  {
    var ordered: seq<Member> := [];
    ghost var entries := OrderedMembers(members);
    for i := 0 to |keys|
      invariant ordered == Build(entries[..i])
      invariant FiniteBefore(members, keys, i)
      invariant state.exactEncodingRequired == (old(state.exactEncodingRequired) || ConflictBefore(members, keys, i))
    {
      SortedKeyHolds(members, i);
      ghost var at := LookupIsMember(members, keys[i]);
      var entry := OrderJsonObject(Lookup(members, keys[i]), state);
      if entry.None? {
        NonFiniteMember(members, keys[i]);
        return None;
      }
      if keys[i] == PROTO {
        ordered := Define(ordered, keys[i], entry.value);
      } else {
        ordered := Assign(ordered, keys[i], entry.value);
      }
      BuildSnoc(entries, i);
    }
    assert entries[..|keys|] == entries;
    FiniteBeforeAll(members);
    r := Some(ordered);
  }

  method KeysDiffer(runtimeKeys: seq<Text>, canonicalKeys: seq<Text>) returns (differs: bool)
    requires |runtimeKeys| == |canonicalKeys|
    ensures differs <==> runtimeKeys != canonicalKeys
  {
    for i := 0 to |canonicalKeys|
      invariant runtimeKeys[..i] == canonicalKeys[..i]
    {
      if runtimeKeys[i] != canonicalKeys[i] {
        return true;
      }
    }
    differs := false;
  }

  /** The fast form prints the canonical text on every value, whichever exit it takes. */
  method CanonicalJsonString(j: Json) returns (r: Option<Text>)
    requires JsValue(j)
    ensures r == Canonical(j)
    ensures r.Some? <==> Num(NonFinite) !in Leaves(j)
    ensures r.Some? ==> PrintsInOrder(j, r.value)
  {
    FailsOnNonFiniteLeaf(j);
    CanonicalPrintsInOrder(j);
    hide Leaves, PrintsInOrder;
    if j.Obj? {
      var conflict := HasNativeKeyOrderConflict(j.members);
      if conflict {
        r := CanonicalJsonStringExact(j);
        return;
      }
    }
    var state := new JsonOrderingState();
    var ordered := OrderJsonObject(j, state);
    if ordered.None? {
      return None;
    }
    OrderedSortsTheSame(j);
    if state.exactEncodingRequired {
      r := CanonicalJsonStringExact(ordered.value);
      return;
    }
    OrderedWithoutConflict(j);
    r := Some(Stringify(ordered.value));
  }
}

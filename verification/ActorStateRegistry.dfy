/** The live state handles of running actors, keyed by address. */
module ActorStateRegistry {
  import opened Wrappers
  import opened Utf16
  import opened Separators

  datatype Address = Address(entityType: Text, entityId: Text)

  /** A handle is told from every other by identity alone. */
  type Handle(==, !new)

  // --- Keys ----------------------------------------------------------------------------

  function AddressKey(a: Address): Text {
    a.entityType + [NUL] + a.entityId
  }

  function ParseAddressKey(key: Text): Address {
    match IndexOfNul(key, 0)
    case None => Address(key, [])
    case Some(first) => Address(key[..first], key[first + 1..])
  }

  /** A key reads back exactly when the entity type holds no NUL, and the type it reads never does. */
  lemma KeyReadsBack(a: Address)
    ensures ParseAddressKey(AddressKey(a)) == a <==> NUL !in a.entityType
    ensures NUL !in ParseAddressKey(AddressKey(a)).entityType
    ensures AddressKey(ParseAddressKey(AddressKey(a))) == AddressKey(a)
  {
    var key, at := AddressKey(a), |a.entityType|;
    NoLaterThan(key, 0, at);
    var first := IndexOfNul(key, 0).value;
    assert key[0..first] == key[..first];
    assert key[..at] == a.entityType && key[at + 1..] == a.entityId;
    if NUL !in a.entityType {
      assert key[0..at] == a.entityType;
      FirstNul(key, 0, at);
    }
    assert key == key[..first] + [NUL] + key[first + 1..];
  }

  /** Neither part holds the separator. */
  predicate Clean(a: Address) {
    NUL !in a.entityType && NUL !in a.entityId
  }

  /** Another address with the key of an address that is not clean. */
  function Twin(a: Address): Address {
    if NUL in a.entityType then ParseAddressKey(AddressKey(a))
    else
      match IndexOfNul(a.entityId, 0)
      case None => a
      case Some(at) => Address(a.entityType + [NUL] + a.entityId[..at], a.entityId[at + 1..])
  }

  lemma Regroup(t: Text, l: Text, r: Text)
    ensures t + [NUL] + l + [NUL] + r == t + [NUL] + (l + [NUL] + r)
  {
  }

  lemma TwinSharesKey(a: Address)
    ensures AddressKey(Twin(a)) == AddressKey(a)
    ensures !Clean(a) ==> Twin(a) != a
  {
    if NUL in a.entityType {
      KeyReadsBack(a);
    } else if NUL in a.entityId {
      assert a.entityId[0..] == a.entityId;
      var at := IndexOfNul(a.entityId, 0).value;
      assert a.entityId == a.entityId[..at] + [NUL] + a.entityId[at + 1..];
      Regroup(a.entityType, a.entityId[..at], a.entityId[at + 1..]);
      assert |Twin(a).entityType| > |a.entityType|;
    } else {
      assert a.entityId[0..] == a.entityId;
    }
  }

  /** A NUL in the type stands in front of the separator and ends up in the id that is read. */
  lemma NulMovesIntoId(a: Address)
    requires NUL in a.entityType
    ensures NUL in ParseAddressKey(AddressKey(a)).entityId
  {
    var key, at := AddressKey(a), |a.entityType|;
    var i :| 0 <= i < at && a.entityType[i] == NUL;
    NoLaterThan(key, 0, i);
    var first := IndexOfNul(key, 0).value;
    assert key[first + 1..][at - (first + 1)] == NUL;
  }

  /** An address has its key to itself exactly when neither its type nor its id holds a NUL. */
  lemma KeyIsUnique(a: Address)
    ensures (forall b: Address :: AddressKey(b) == AddressKey(a) ==> b == a) <==> Clean(a)
  {
    TwinSharesKey(a);
    KeyReadsBack(a);
    forall b: Address | Clean(a) && AddressKey(b) == AddressKey(a)
      ensures b == a
    {
      KeyReadsBack(b);
      if NUL in b.entityType {
        NulMovesIntoId(b);
      }
    }
  }

  /** Among addresses with NUL-free types, keys are never shared. */
  lemma NulFreeTypesShareNothing(a: Address, b: Address)
    requires NUL !in a.entityType && NUL !in b.entityType
    ensures AddressKey(a) == AddressKey(b) <==> a == b
  {
    KeyReadsBack(a);
    KeyReadsBack(b);
  }

  // --- The map, in insertion order ----------------------------------------------------------

  datatype Entry = Entry(key: Text, handle: Handle)

  /** No key stands twice. */
  predicate Distinct(entries: seq<Entry>) {
    if entries == [] then true else Lookup(entries[1..], entries[0].key).None? && Distinct(entries[1..])
  }

  function Lookup(entries: seq<Entry>, key: Text): Option<Handle> {
    if entries == [] then None
    else if entries[0].key == key then Some(entries[0].handle)
    else Lookup(entries[1..], key)
  }

  /** `Map.set`: a known key keeps its place, a new one comes last. */
  function Put(entries: seq<Entry>, key: Text, handle: Handle): seq<Entry> {
    if entries == [] then [Entry(key, handle)]
    else if entries[0].key == key then [Entry(key, handle)] + entries[1..]
    else [entries[0]] + Put(entries[1..], key, handle)
  }

  /** `Map.delete` */
  function Remove(entries: seq<Entry>, key: Text): seq<Entry> {
    if entries == [] then []
    else if entries[0].key == key then entries[1..]
    else [entries[0]] + Remove(entries[1..], key)
  }

  /** `get` and `set` of a map. */
  lemma {:induction false} PutThenLookup(entries: seq<Entry>, key: Text, handle: Handle, other: Text)
    ensures Lookup(Put(entries, key, handle), other) == if other == key then Some(handle) else Lookup(entries, other)
    ensures Distinct(entries) ==> Distinct(Put(entries, key, handle))
  {
    if entries == [] || entries[0].key == key {
    } else {
      PutThenLookup(entries[1..], key, handle, other);
      PutThenLookup(entries[1..], key, handle, entries[0].key);
      assert Put(entries, key, handle)[1..] == Put(entries[1..], key, handle);
    }
  }

  lemma {:induction false} RemoveThenLookup(entries: seq<Entry>, key: Text, other: Text)
    requires Distinct(entries)
    ensures Lookup(Remove(entries, key), other) == if other == key then None else Lookup(entries, other)
    ensures Distinct(Remove(entries, key))
  {
    if entries == [] || entries[0].key == key {
    } else {
      RemoveThenLookup(entries[1..], key, other);
      RemoveThenLookup(entries[1..], key, entries[0].key);
      assert Remove(entries, key)[1..] == Remove(entries[1..], key);
    }
  }

  // --- Histories --------------------------------------------------------------------------------

  datatype Op = Register(address: Address, handle: Handle) | Deregister(address: Address, handle: Handle)

  function Apply(entries: seq<Entry>, op: Op): seq<Entry> {
    var key := AddressKey(op.address);
    match op
    case Register(_, handle) => Put(entries, key, handle)
    case Deregister(_, handle) => if Lookup(entries, key) == Some(handle) then Remove(entries, key) else entries
  }

  function Run(ops: seq<Op>): seq<Entry> {
    if ops == [] then [] else Apply(Run(ops[..|ops| - 1]), ops[|ops| - 1])
  }

  /** `ops[p]` registers `handle` under `key`, and nothing later registers there or deregisters that handle. */
  predicate LiveSince(ops: seq<Op>, key: Text, handle: Handle, p: nat) {
    && p < |ops| && ops[p].Register? && AddressKey(ops[p].address) == key && ops[p].handle == handle
    && (forall q :: p < q < |ops| && AddressKey(ops[q].address) == key ==>
          ops[q].Deregister? && ops[q].handle != handle)
  }

  lemma {:induction false} RunIsDistinct(ops: seq<Op>)
    ensures Distinct(Run(ops))
  {
    if ops != [] {
      var before, op := Run(ops[..|ops| - 1]), ops[|ops| - 1];
      RunIsDistinct(ops[..|ops| - 1]);
      PutThenLookup(before, AddressKey(op.address), op.handle, []);
      RemoveThenLookup(before, AddressKey(op.address), []);
    }
  }

  lemma RunStep(ops: seq<Op>, key: Text)
    requires ops != []
    ensures var before, op := Lookup(Run(ops[..|ops| - 1]), key), ops[|ops| - 1];
            Lookup(Run(ops), key) ==
            if AddressKey(op.address) != key then before
            else if op.Register? then Some(op.handle)
            else if before == Some(op.handle) then None
            else before
  {
    var before, op := Run(ops[..|ops| - 1]), ops[|ops| - 1];
    RunIsDistinct(ops[..|ops| - 1]);
    PutThenLookup(before, AddressKey(op.address), op.handle, key);
    RemoveThenLookup(before, AddressKey(op.address), key);
  }

  /** The registration a lookup finds, as a place in the history. */
  lemma {:induction false} FoundMeansLive(ops: seq<Op>, key: Text) returns (p: nat)
    ensures Lookup(Run(ops), key).Some? ==> LiveSince(ops, key, Lookup(Run(ops), key).value, p)
  {
    p := 0;
    if ops != [] {
      RunStep(ops, key);
      var last := |ops| - 1;
      if AddressKey(ops[last].address) == key && ops[last].Register? {
        p := last;
      } else {
        p := FoundMeansLive(ops[..last], key);
        hide Run, Lookup;
      }
    }
  }

  lemma {:induction false} LiveMeansFound(ops: seq<Op>, key: Text, handle: Handle, p: nat)
    requires LiveSince(ops, key, handle, p)
    ensures Lookup(Run(ops), key) == Some(handle)
  {
    var last := |ops| - 1;
    RunStep(ops, key);
    hide Run, Lookup;
    if p < last {
      LiveMeansFound(ops[..last], key, handle, p);
    }
  }

  /**
   * After any history, a lookup finds a handle exactly when its registration is
   * the latest under that key and the handle has not been deregistered since.
   */
  lemma GetFindsTheLatest(ops: seq<Op>, address: Address, handle: Handle)
    ensures Lookup(Run(ops), AddressKey(address)) == Some(handle) <==>
            exists p: nat :: LiveSince(ops, AddressKey(address), handle, p)
  {
    var p := FoundMeansLive(ops, AddressKey(address));
    forall q: nat | LiveSince(ops, AddressKey(address), handle, q)
      ensures Lookup(Run(ops), AddressKey(address)) == Some(handle)
    {
      LiveMeansFound(ops, AddressKey(address), handle, q);
    }
  }

  // --- Histories by address -----------------------------------------------------------------------

  /** `ops[p]` registers `handle` at `address`, and nothing later registers there or deregisters it there. */
  predicate LiveAt(ops: seq<Op>, address: Address, handle: Handle, p: nat) {
    && p < |ops| && ops[p] == Register(address, handle)
    && (forall q :: p < q < |ops| && ops[q].address == address ==> ops[q].Deregister? && ops[q].handle != handle)
  }

  ghost predicate Live(ops: seq<Op>, address: Address) {
    exists handle, p: nat :: LiveAt(ops, address, handle, p)
  }

  /** No other address in the history has the key of `address`. */
  ghost predicate Apart(ops: seq<Op>, address: Address) {
    forall i :: 0 <= i < |ops| && AddressKey(ops[i].address) == AddressKey(address) ==> ops[i].address == address
  }

  ghost predicate NulFreeTypes(ops: seq<Op>) {
    forall i :: 0 <= i < |ops| ==> NUL !in ops[i].address.entityType
  }

  lemma CleanIsApart(ops: seq<Op>, address: Address)
    requires Clean(address) || (NulFreeTypes(ops) && NUL !in address.entityType)
    ensures Apart(ops, address)
  {
    forall i | 0 <= i < |ops| && AddressKey(ops[i].address) == AddressKey(address)
      ensures ops[i].address == address
    {
      if Clean(address) {
        KeyIsUnique(address);
      } else {
        NulFreeTypesShareNothing(ops[i].address, address);
      }
    }
  }

  /** `get` finds a handle exactly when it is the latest registered at that very address and still registered. */
  ghost predicate GetAgrees(ops: seq<Op>, address: Address, handle: Handle) {
    Lookup(Run(ops), AddressKey(address)) == Some(handle) <==> exists p: nat :: LiveAt(ops, address, handle, p)
  }

  /** `list` holds an id once when it is live under that very type, and otherwise not at all. */
  ghost predicate ListAgrees(ops: seq<Op>, address: Address) {
    multiset(Listed(Run(ops), address.entityType))[address.entityId] == if Live(ops, address) then 1 else 0
  }

  lemma ApartGetAgrees(ops: seq<Op>, address: Address, handle: Handle)
    requires Apart(ops, address)
    ensures GetAgrees(ops, address, handle)
  {
    hide Run, Lookup, AddressKey;
    GetFindsTheLatest(ops, address, handle);
    forall p: nat
      ensures LiveSince(ops, AddressKey(address), handle, p) <==> LiveAt(ops, address, handle, p)
    {
    }
  }

  lemma ApartListAgrees(ops: seq<Op>, address: Address)
    requires Apart(ops, address) && NUL !in address.entityType
    ensures ListAgrees(ops, address)
  {
    hide Run, Lookup, AddressKey, Listed, LiveAt, Apart;
    ListIsExact(ops, address.entityType, address.entityId);
    var found := Lookup(Run(ops), AddressKey(address));
    if found.Some? {
      ApartGetAgrees(ops, address, found.value);
    }
    forall handle, p: nat | LiveAt(ops, address, handle, p)
      ensures found == Some(handle)
    {
      ApartGetAgrees(ops, address, handle);
    }
  }

  lemma RunOfOne(address: Address, handle: Handle, key: Text)
    ensures Lookup(Run([Register(address, handle)]), key) == if key == AddressKey(address) then Some(handle) else None
  {
    RunStep([Register(address, handle)], key);
    assert [Register(address, handle)][..0] == [];
  }

  lemma NothingElseLives(address: Address, handle: Handle, other: Address)
    ensures Live([Register(address, handle)], other) <==> other == address
  {
    assert LiveAt([Register(address, handle)], address, handle, 0);
  }

  /** One registration at the twin of an address that is not clean: `get` and `list` go wrong. */
  lemma TwinMisleads(address: Address, handle: Handle)
    requires !Clean(address)
    ensures !GetAgrees([Register(Twin(address), handle)], address, handle)
    ensures NUL !in address.entityType ==> !ListAgrees([Register(Twin(address), handle)], address)
    ensures NUL in address.entityType ==> !ListAgrees([Register(address, handle)], address)
  {
    hide Run, Lookup, Listed, AddressKey, Twin, LiveAt;
    TwinSharesKey(address);
    RunOfOne(Twin(address), handle, AddressKey(address));
    NothingElseLives(Twin(address), handle, address);
    NothingElseLives(address, handle, address);
    ListIsExact([Register(Twin(address), handle)], address.entityType, address.entityId);
    ListIsExact([Register(address, handle)], address.entityType, address.entityId);
  }

  /** `get` keeps its promise over every history exactly at the clean addresses. */
  lemma GetHoldsExactly(address: Address, handle: Handle)
    ensures (forall ops :: GetAgrees(ops, address, handle)) <==> Clean(address)
  {
    if Clean(address) {
      forall ops
        ensures GetAgrees(ops, address, handle)
      {
        CleanIsApart(ops, address);
        ApartGetAgrees(ops, address, handle);
      }
    } else {
      TwinMisleads(address, handle);
    }
  }

  /** So does `list`; `handle` is any handle there is. */
  lemma ListHoldsExactly(address: Address, handle: Handle)
    ensures (forall ops :: ListAgrees(ops, address)) <==> Clean(address)
  {
    if Clean(address) {
      forall ops
        ensures ListAgrees(ops, address)
      {
        CleanIsApart(ops, address);
        ApartListAgrees(ops, address);
      }
    } else {
      TwinMisleads(address, handle);
    }
  }

  /** In a history whose types are all NUL-free, both keep it for every NUL-free type, whatever the ids. */
  lemma NulFreeTypesAgree(ops: seq<Op>, address: Address, handle: Handle)
    requires NulFreeTypes(ops) && NUL !in address.entityType
    ensures GetAgrees(ops, address, handle) && ListAgrees(ops, address)
  {
    CleanIsApart(ops, address);
    ApartGetAgrees(ops, address, handle);
    ApartListAgrees(ops, address);
  }

  /** A handle registered at ("a\0b", "c") is found, and its id listed, at ("a", "b\0c"), where nothing was registered. */
  lemma ForeignHandle(handle: Handle)
    ensures var ops, address := [Register(Address([0x61, NUL, 0x62], [0x63]), handle)], Address([0x61], [0x62, NUL, 0x63]);
            && Lookup(Run(ops), AddressKey(address)) == Some(handle)
            && multiset(Listed(Run(ops), address.entityType))[address.entityId] == 1
            && !Live(ops, address)
  {
    var op, address := Register(Address([0x61, NUL, 0x62], [0x63]), handle), Address([0x61], [0x62, NUL, 0x63]);
    assert AddressKey(op.address) == AddressKey(address) == [0x61, NUL, 0x62, NUL, 0x63];
    hide Run, Lookup, Listed, AddressKey, LiveAt;
    RunOfOne(op.address, handle, AddressKey(address));
    NothingElseLives(op.address, handle, address);
    ListIsExact([op], address.entityType, address.entityId);
  }

  /** The finalizer of a handle that is not the current one changes nothing. */
  lemma SupersededFinalizerIsIdle(ops: seq<Op>, address: Address, handle: Handle)
    requires forall p: nat :: !LiveSince(ops, AddressKey(address), handle, p)
    ensures Run(ops + [Deregister(address, handle)]) == Run(ops)
  {
    GetFindsTheLatest(ops, address, handle);
    assert (ops + [Deregister(address, handle)])[..|ops|] == ops;
  }

  /** A handle that is gone stays gone as long as it is not registered there again. */
  lemma {:induction false} HandlesNeverResurface(ops: seq<Op>, later: seq<Op>, address: Address, handle: Handle)
    requires Lookup(Run(ops), AddressKey(address)) != Some(handle)
    requires forall i :: 0 <= i < |later| && later[i].Register? && AddressKey(later[i].address) == AddressKey(address) ==>
               later[i].handle != handle
    ensures Lookup(Run(ops + later), AddressKey(address)) != Some(handle)
  {
    if later == [] {
      assert ops + later == ops;
    } else {
      var last := |later| - 1;
      HandlesNeverResurface(ops, later[..last], address, handle);
      assert (ops + later)[..|ops + later| - 1] == ops + later[..last];
      RunStep(ops + later, AddressKey(address));
    }
  }

  // --- Listing --------------------------------------------------------------------------------------

  function Listed(entries: seq<Entry>, entityType: Text): seq<Text> {
    if entries == [] then []
    else
      var parsed := ParseAddressKey(entries[0].key);
      (if parsed.entityType == entityType then [parsed.entityId] else []) + Listed(entries[1..], entityType)
  }

  /** Every key of the map is the key of some address. */
  ghost predicate AddressKeys(entries: seq<Entry>) {
    forall i :: 0 <= i < |entries| ==> IsAddressKey(entries[i].key)
  }

  predicate IsAddressKey(key: Text) {
    NUL in key
  }

  lemma {:induction false} PutKeepsAddressKeys(entries: seq<Entry>, a: Address, handle: Handle)
    requires AddressKeys(entries)
    ensures AddressKeys(Put(entries, AddressKey(a), handle))
  {
    assert AddressKey(a)[|a.entityType|] == NUL;
    if entries != [] && entries[0].key != AddressKey(a) {
      PutKeepsAddressKeys(entries[1..], a, handle);
    }
  }

  lemma {:induction false} RemoveKeepsAddressKeys(entries: seq<Entry>, key: Text)
    requires AddressKeys(entries)
    ensures AddressKeys(Remove(entries, key))
  {
    if entries != [] && entries[0].key != key {
      RemoveKeepsAddressKeys(entries[1..], key);
    }
  }

  lemma {:induction false} RunKeepsAddressKeys(ops: seq<Op>)
    ensures AddressKeys(Run(ops))
  {
    if ops != [] {
      var before, op := Run(ops[..|ops| - 1]), ops[|ops| - 1];
      RunKeepsAddressKeys(ops[..|ops| - 1]);
      PutKeepsAddressKeys(before, op.address, op.handle);
      RemoveKeepsAddressKeys(before, AddressKey(op.address));
    }
  }

  /** A key that holds a NUL is the key of what it parses to, and of nothing else with a NUL-free type. */
  lemma ParseInverts(key: Text, entityType: Text, id: Text)
    requires IsAddressKey(key) && NUL !in entityType
    ensures ParseAddressKey(key) == Address(entityType, id) <==> key == AddressKey(Address(entityType, id))
  {
    assert key[0..] == key;
    var first := IndexOfNul(key, 0).value;
    assert key == key[..first] + [NUL] + key[first + 1..];
    KeyReadsBack(Address(entityType, id));
  }

  lemma {:induction false} ListFinds(entries: seq<Entry>, entityType: Text, id: Text)
    requires AddressKeys(entries) && Distinct(entries) && NUL !in entityType
    ensures multiset(Listed(entries, entityType))[id] ==
            if Lookup(entries, AddressKey(Address(entityType, id))).Some? then 1 else 0
  {
    if entries != [] {
      var parsed := ParseAddressKey(entries[0].key);
      var front: seq<Text> := if parsed.entityType == entityType then [parsed.entityId] else [];
      assert IsAddressKey(entries[0].key);
      ParseInverts(entries[0].key, entityType, id);
      ListFinds(entries[1..], entityType, id);
      assert multiset(Listed(entries, entityType)) == multiset(front) + multiset(Listed(entries[1..], entityType));
    }
  }

  lemma {:induction false} NulTypeListsNothing(entries: seq<Entry>, entityType: Text)
    requires AddressKeys(entries) && NUL in entityType
    ensures Listed(entries, entityType) == []
  {
    if entries != [] {
      var key := entries[0].key;
      assert IsAddressKey(key);
      assert key[0..] == key;
      var first := IndexOfNul(key, 0).value;
      assert key[0..first] == key[..first];
      NulTypeListsNothing(entries[1..], entityType);
    }
  }

  /** After any history, `list` of a NUL-free type holds each live id once and no other; of any other type, nothing. */
  lemma ListIsExact(ops: seq<Op>, entityType: Text, id: Text)
    ensures NUL !in entityType ==>
              multiset(Listed(Run(ops), entityType))[id] ==
              if Lookup(Run(ops), AddressKey(Address(entityType, id))).Some? then 1 else 0
    ensures NUL in entityType ==> Listed(Run(ops), entityType) == []
  {
    RunIsDistinct(ops);
    RunKeepsAddressKeys(ops);
    if NUL !in entityType {
      ListFinds(Run(ops), entityType, id);
    } else {
      NulTypeListsNothing(Run(ops), entityType);
    }
  }

  // --- The order of the list ---------------------------------------------------------------------------

  function KeysOf(entries: seq<Entry>): (keys: seq<Text>)
    ensures |keys| == |entries|
  {
    if entries == [] then [] else [entries[0].key] + KeysOf(entries[1..])
  }

  lemma ConsKeys(e: Entry, rest: seq<Entry>)
    ensures KeysOf([e] + rest) == [e.key] + KeysOf(rest)
  {
    assert ([e] + rest)[1..] == rest;
  }

  /** Setting a known key keeps its place, setting a new one puts it last. */
  lemma {:induction false} PutPlaces(entries: seq<Entry>, key: Text, handle: Handle)
    ensures KeysOf(Put(entries, key, handle)) ==
            if Lookup(entries, key).Some? then KeysOf(entries) else KeysOf(entries) + [key]
  {
    if entries == [] {
      ConsKeys(Entry(key, handle), []);
    } else {
      var rest := entries[1..];
      assert entries == [entries[0]] + rest;
      ConsKeys(entries[0], rest);
      if entries[0].key == key {
        ConsKeys(Entry(key, handle), rest);
      } else {
        PutPlaces(rest, key, handle);
        ConsKeys(entries[0], Put(rest, key, handle));
      }
    }
  }

  /** Deleting a key closes the gap it leaves. */
  lemma {:induction false} RemovePlaces(entries: seq<Entry>, key: Text) returns (p: nat)
    requires Lookup(entries, key).Some?
    ensures p < |entries| && KeysOf(entries)[p] == key
    ensures KeysOf(Remove(entries, key)) == KeysOf(entries)[..p] + KeysOf(entries)[p + 1..]
  {
    var rest := entries[1..];
    assert entries == [entries[0]] + rest;
    ConsKeys(entries[0], rest);
    if entries[0].key == key {
      p := 0;
    } else {
      p := RemovePlaces(rest, key);
      ConsKeys(entries[0], Remove(rest, key));
      p := p + 1;
    }
  }

  /** The place in the history from which on a live key has been live without a break. */
  function Since(ops: seq<Op>, key: Text): nat {
    if ops == [] then 0
    else
      var before := ops[..|ops| - 1];
      if Lookup(Run(before), key).None? then |before| else Since(before, key)
  }

  lemma {:induction false} SinceIsInside(ops: seq<Op>, key: Text)
    requires ops != []
    ensures Since(ops, key) < |ops|
  {
    if Lookup(Run(ops[..|ops| - 1]), key).Some? {
      SinceIsInside(ops[..|ops| - 1], key);
    }
  }

  ghost predicate InOrderOfSince(ops: seq<Op>, keys: seq<Text>) {
    forall i, j :: 0 <= i < j < |keys| ==> Since(ops, keys[i]) < Since(ops, keys[j])
  }

  lemma {:induction false} KeyIsLive(entries: seq<Entry>, i: nat)
    requires i < |entries|
    ensures Lookup(entries, KeysOf(entries)[i]).Some?
  {
    if i > 0 {
      KeyIsLive(entries[1..], i - 1);
    }
  }

  /** A step that leaves live keys live does not change since when they are. */
  lemma SinceStays(ops: seq<Op>, keys: seq<Text>)
    requires ops != []
    requires InOrderOfSince(ops[..|ops| - 1], keys)
    requires forall i :: 0 <= i < |keys| ==> Lookup(Run(ops[..|ops| - 1]), keys[i]).Some?
    ensures InOrderOfSince(ops, keys)
  {
    hide Run, Lookup;
  }

  /** The map, and so the list, holds the live keys in the order in which they became live. */
  lemma {:induction false} EntriesAreInOrder(ops: seq<Op>)
    ensures InOrderOfSince(ops, KeysOf(Run(ops)))
  {
    if ops != [] {
      var before, op := ops[..|ops| - 1], ops[|ops| - 1];
      var entries, key := Run(before), AddressKey(op.address);
      EntriesAreInOrder(before);
      forall i: nat | i < |entries|
        ensures Lookup(entries, KeysOf(entries)[i]).Some?
      {
        KeyIsLive(entries, i);
      }
      var keys := KeysOf(entries);
      SinceStays(ops, keys);
      hide Lookup, Put, Remove, KeysOf;
      if op.Register? {
        PutPlaces(entries, key, op.handle);
        if Lookup(entries, key).None? {
          NewKeyIsLast(ops, keys, key);
        }
      } else if Lookup(entries, key) == Some(op.handle) {
        var p := RemovePlaces(entries, key);
        GapStaysInOrder(ops, keys, p);
      }
    }
  }

  lemma NewKeyIsLast(ops: seq<Op>, keys: seq<Text>, key: Text)
    requires ops != [] && Lookup(Run(ops[..|ops| - 1]), key).None?
    requires InOrderOfSince(ops, keys)
    requires forall i :: 0 <= i < |keys| ==> Lookup(Run(ops[..|ops| - 1]), keys[i]).Some?
    ensures InOrderOfSince(ops, keys + [key])
  {
    hide Run, Lookup;
    var before := ops[..|ops| - 1];
    forall i | 0 <= i < |keys|
      ensures Since(ops, keys[i]) < Since(ops, key)
    {
      if before == [] {
        NothingIsLive(keys[i]);
      } else {
        SinceIsInside(before, keys[i]);
      }
    }
  }

  lemma NothingIsLive(key: Text)
    ensures Lookup(Run([]), key).None?
  {
  }

  lemma GapStaysInOrder(ops: seq<Op>, keys: seq<Text>, p: nat)
    requires p < |keys| && InOrderOfSince(ops, keys)
    ensures InOrderOfSince(ops, keys[..p] + keys[p + 1..])
  {
    hide Since;
    var rest := keys[..p] + keys[p + 1..];
    assert forall i :: 0 <= i < |rest| ==> rest[i] == keys[if i < p then i else i + 1];
  }

  /** The list takes the entries as they come: an entry of the type gives its id, any other nothing. */
  lemma {:induction false} ListedAppends(entries: seq<Entry>, more: seq<Entry>, entityType: Text)
    ensures Listed(entries + more, entityType) == Listed(entries, entityType) + Listed(more, entityType)
  {
    hide ParseAddressKey;
    if entries == [] {
      assert entries + more == more;
      assert [] + Listed(more, entityType) == Listed(more, entityType);
    } else {
      assert (entries + more)[1..] == entries[1..] + more;
      ListedAppends(entries[1..], more, entityType);
      var parsed := ParseAddressKey(entries[0].key);
      var head: seq<Text> := if parsed.entityType == entityType then [parsed.entityId] else [];
      assert Listed(entries + more, entityType) == head + Listed(entries[1..] + more, entityType);
      assert Listed(entries, entityType) == head + Listed(entries[1..], entityType);
      Associates(head, Listed(entries[1..], entityType), Listed(more, entityType));
    }
  }

  lemma Associates(a: seq<Text>, b: seq<Text>, c: seq<Text>)
    ensures a + (b + c) == a + b + c
  {
  }

  lemma ListedOne(address: Address, handle: Handle, entityType: Text)
    requires NUL !in address.entityType
    ensures Listed([Entry(AddressKey(address), handle)], entityType)
            == if entityType == address.entityType then [address.entityId] else []
  {
    KeyReadsBack(address);
    var one: seq<Entry> := [Entry(AddressKey(address), handle)];
    assert one[1..] == [];
    hide AddressKey, ParseAddressKey;
  }

  // --- The registry object ------------------------------------------------------------------------------

  class Registry {
    var entries: seq<Entry>
    ghost var history: seq<Op>

    ghost predicate Valid()
      reads this
    {
      entries == Run(history)
    }

    constructor ()
      ensures Valid() && history == []
    {
      entries := [];
      history := [];
    }

    method Register(address: Address, handle: Handle)
      requires Valid()
      modifies this
      ensures Valid() && history == old(history) + [Op.Register(address, handle)]
    {
      entries := Put(entries, AddressKey(address), handle);
      history := history + [Op.Register(address, handle)];
      assert history[..|history| - 1] == old(history);
    }

    method Deregister(address: Address, handle: Handle)
      requires Valid()
      modifies this
      ensures Valid() && history == old(history) + [Op.Deregister(address, handle)]
    {
      var key := AddressKey(address);
      if Lookup(entries, key) == Some(handle) {
        entries := Remove(entries, key);
      }
      history := history + [Op.Deregister(address, handle)];
      assert history[..|history| - 1] == old(history);
    }

    /** `None` is the failure `ActorStateUnavailable`. */
    method Get(address: Address) returns (handle: Option<Handle>)
      requires Valid()
      ensures forall h :: handle == Some(h) <==> exists p: nat :: LiveSince(history, AddressKey(address), h, p)
      ensures Clean(address) || (NulFreeTypes(history) && NUL !in address.entityType) ==>
                forall h :: handle == Some(h) <==> exists p: nat :: LiveAt(history, address, h, p)
    {
      handle := Lookup(entries, AddressKey(address));
      forall h ensures handle == Some(h) <==> exists p: nat :: LiveSince(history, AddressKey(address), h, p) {
        GetFindsTheLatest(history, address, h);
      }
      if Clean(address) || (NulFreeTypes(history) && NUL !in address.entityType) {
        CleanIsApart(history, address);
        forall h ensures handle == Some(h) <==> exists p: nat :: LiveAt(history, address, h, p) {
          ApartGetAgrees(history, address, h);
        }
      }
    }

    method List(entityType: Text) returns (ids: seq<Text>)
      requires Valid()
      ensures NUL !in entityType ==>
                forall id :: multiset(ids)[id] ==
                             if Lookup(entries, AddressKey(Address(entityType, id))).Some? then 1 else 0
      ensures NUL in entityType ==> ids == []
      ensures forall id :: Clean(Address(entityType, id)) || (NulFreeTypes(history) && NUL !in entityType) ==>
                multiset(ids)[id] == if Live(history, Address(entityType, id)) then 1 else 0
    {
      ids := Listed(entries, entityType);
      forall id ensures NUL !in entityType ==>
        multiset(ids)[id] == if Lookup(entries, AddressKey(Address(entityType, id))).Some? then 1 else 0
      {
        ListIsExact(history, entityType, id);
      }
      ListIsExact(history, entityType, []);
      forall id | Clean(Address(entityType, id)) || (NulFreeTypes(history) && NUL !in entityType)
        ensures multiset(ids)[id] == if Live(history, Address(entityType, id)) then 1 else 0
      {
        CleanIsApart(history, Address(entityType, id));
        ApartListAgrees(history, Address(entityType, id));
      }
    }
  }
}

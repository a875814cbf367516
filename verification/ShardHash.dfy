/** Which shard an entity id goes to: a djb2 loop, a fold to 31 bits and a remainder. */
module ShardHash {
  import opened Utf16
  import opened Bits

  const EXACT: int := 0x20_0000_0000_0000   // 2^53
  const TWO_30: int := 0x4000_0000

  // --- Double arithmetic on integers -----------------------------------------------------

  /** `x` halved and rounded to the nearest integer, ties to even. */
  function HalfEven(x: int, step: nat): int
    requires step > 0
  {
    var down, rest := x / step, x % step;
    if 2 * rest < step || (2 * rest == step && down % 2 == 0) then down else down + 1
  }

  /** The double nearest to an integer: 53 significant bits, ties to even. */
  function Nearest(x: int, step: nat): int
    requires step > 0
    decreases if x >= 0 then x / step else -x / step
  {
    if -EXACT * step < x < EXACT * step then HalfEven(x, step) * step
    else
      assert (if x >= 0 then x / (2 * step) else -x / (2 * step)) < (if x >= 0 then x / step else -x / step) by {
        Shrinks(if x >= 0 then x else -x, step);
      }
      Nearest(x, 2 * step)
  }

  lemma Shrinks(x: nat, step: nat)
    requires step > 0 && x >= EXACT * step
    ensures x / (2 * step) < x / step
  {
    var q := x / (2 * step);
    assert x == q * (2 * step) + x % (2 * step);
    assert q * (2 * step) == (2 * q) * step;
    AtLeast(x, step, 2 * q);
    AtLeast(x, step, EXACT);
  }

  lemma AtLeast(x: nat, step: nat, q: nat)
    requires step > 0 && x >= q * step
    ensures x / step >= q
  {
    assert x == x / step * step + x % step;
    assert (x / step + 1) * step > q * step;
  }

  /** One round of the loop: `h * 33` as a double, exclusive-or on 32 bits. */
  function Round(h: int, c: Unit): int {
    Bitwise32(Xor, Nearest(h * 33, 1), c)
  }

  /** The hash after the characters from `i` to the end have been taken, last first. */
  function HashFrom(s: Text, i: nat): int
    requires i <= |s|
    decreases |s| - i
  {
    if i == |s| then 5381 else Round(HashFrom(s, i + 1), s[i])
  }

  /** `(n & 0xbfffffff) | ((n >>> 1) & 0x40000000)` */
  function HashOptimize(n: int): int {
    Bitwise32(Or, Bitwise32(And, n, 0xbfffffff), Bitwise32(And, ToUint32(n) / 2, 0x40000000))
  }

  function Hash(s: Text): int {
    HashOptimize(HashFrom(s, 0))
  }

  method HashString(s: Text) returns (hash: int)
    ensures hash == Hash(s)
    ensures var v := ToInt32(Djb2(s));
            hash == if v < 0 then v % 0x4000_0000 - 0x4000_0000 else v % 0x4000_0000
  {
    HashIsFoldedDjb2(s);
    hide HashOptimize, Djb2, Nearest, Bitwise32;
    var h := 5381;
    var i := |s|;
    while i != 0
      invariant 0 <= i <= |s|
      invariant h == HashFrom(s, i)
    {
      i := i - 1;
      h := Bitwise32(Xor, Nearest(h * 33, 1), s[i]);
    }
    hash := HashOptimize(h);
  }

  /** JavaScript's remainder: it has the sign of the dividend. */
  function Remainder(x: int, n: int): int
    requires n > 0
  {
    if x < 0 then -(-x % n) else x % n
  }

  function Abs(x: int): int {
    if x < 0 then -x else x
  }

  /** The shard number within its group. */
  function ShardId(entityId: Text, shardsPerGroup: int): int
    requires shardsPerGroup > 0
  {
    Abs(Remainder(Hash(entityId), shardsPerGroup)) + 1
  }

  // --- Doubles agree with 32-bit words ------------------------------------------------------

  /** djb2 on 32-bit words that wrap around, the last character first. */
  function Djb2(s: Text): (u: nat) {
    if s == [] then 5381 else Bitwise(Xor, Djb2(s[1..]) * 33 % TWO_32, s[0])
  }

  lemma HalfEvenIsNear(x: int, step: nat)
    requires step > 0
    ensures 2 * Abs(HalfEven(x, step) * step - x) <= step
    ensures 2 * Abs(HalfEven(x, step) * step - x) == step ==> HalfEven(x, step) % 2 == 0
  {
    var down, rest := x / step, x % step;
    assert x == down * step + rest;
    assert (down + 1) * step == down * step + step;
  }

  /** Rounding picks a multiple of the least sufficient step, at most half a step away, an even one on a tie. */
  lemma {:induction false} NearestIsNear(x: int, step: nat) returns (n: int, s: nat)
    requires step > 0
    ensures s >= step && Nearest(x, step) == n * s && -EXACT * s < x < EXACT * s
    ensures s == step || Abs(x) >= EXACT * (s / 2)
    ensures 2 * Abs(n * s - x) <= s && (2 * Abs(n * s - x) == s ==> n % 2 == 0)
    decreases if x >= 0 then x / step else -x / step
  {
    if -EXACT * step < x < EXACT * step {
      n, s := HalfEven(x, step), step;
      HalfEvenIsNear(x, step);
    } else {
      Shrinks(Abs(x), step);
      n, s := NearestIsNear(x, 2 * step);
    }
  }

  lemma NearestIsExact(x: int)
    requires -EXACT < x < EXACT
    ensures Nearest(x, 1) == x
  {
  }

  lemma {:induction false} HashIsInt32(s: Text, i: nat)
    requires i <= |s|
    ensures -TWO_31 <= HashFrom(s, i) < TWO_31
    decreases |s| - i
  {
  }

  lemma WrapsTheSame(h: int, u: nat)
    requires ToUint32(h) == u % TWO_32
    ensures ToUint32(h * 33) == u * 33 % TWO_32
  {
    SameRemainder(h, u, 0x1_0000_0000);
  }

  lemma SameRemainder(h: int, u: int, n: int)
    requires n > 0 && h % n == u % n
    ensures h * 33 % n == u * 33 % n
  {
    var r, q, p := h % n, h / n, u / n;
    assert h == q * n + r && u == p * n + r;
    Scaled(q, n, r);
    Scaled(p, n, r);
  }

  lemma Scaled(q: int, n: int, r: int)
    requires n > 0
    ensures (q * n + r) * 33 % n == r * 33 % n
  {
    var k, x := r * 33 / n, r * 33 % n;
    assert (q * n + r) * 33 == 33 * (q * n) + (k * n + x);
    Distributes(33 * q, k, n);
    assert 33 * (q * n) == (33 * q) * n;
    Remains(33 * q + k, n, x);
  }

  lemma Distributes(a: int, b: int, n: int)
    ensures (a + b) * n == a * n + b * n
  {
  }

  lemma SplitAt(a: nat, k: nat, p: nat, q: nat, r: nat)
    requires p == Pow2(k) && r < p && a == q * p + r
    ensures Upper(a, k) == q && Lower(a, k) == r
  {
    UpperLower(a, k);
    assert Upper(a, k) * p + Lower(a, k) == q * p + r;
    Unique(p, Upper(a, k), Lower(a, k), q, r);
  }

  lemma Unique(p: nat, q: nat, r: nat, q': nat, r': nat)
    requires r < p && r' < p && q * p + r == q' * p + r'
    ensures q == q' && r == r'
  {
    assert (q - q') * p == r' - r;
    Multiple(q - q', p);
    Multiple(q' - q, p);
  }

  lemma Multiple(d: int, p: nat)
    ensures d >= 1 ==> d * p >= p
  {
  }

  lemma Powers()
    ensures Pow2(16) == 0x10000 && Pow2(30) == TWO_30 && Pow2(32) == TWO_32
  {
    assert Pow2(8) == 0x100;
    assert Pow2(12) == 0x1000;
    assert Pow2(16) == 0x10000;
    assert Pow2(20) == 0x100000;
    assert Pow2(24) == 0x1000000;
    assert Pow2(28) == 0x10000000;
    assert Pow2(30) == TWO_30;
  }

  /** A bitwise operator on 32-bit words gives a 32-bit word. */
  lemma Fits(g: Gate, a: nat, b: nat)
    requires a < TWO_32 && b < TWO_32
    ensures Bitwise(g, a, b) < TWO_32
  {
    Powers();
    SplitAt(a, 32, TWO_32, 0, a);
    SplitAt(b, 32, TWO_32, 0, b);
    BitwiseSplits(g, a, b, 32);
    UpperLower(Bitwise(g, a, b), 32);
    assert Bitwise(g, 0, 0) == 0;
  }

  lemma WordStays(word: nat)
    requires word < TWO_32
    ensures ToUint32(ToInt32(word)) == word
  {
  }

  /** One round neither rounds nor differs from a round on words. */
  lemma RoundOnWords(h: int, u: nat, c: Unit)
    requires -TWO_31 <= h < TWO_31 && ToUint32(h) == u
    ensures -EXACT < h * 33 < EXACT
    ensures ToUint32(Round(h, c)) == Bitwise(Xor, u * 33 % TWO_32, c) < TWO_32
  {
    hide Nearest, Bitwise;
    NearestIsExact(h * 33);
    WrapsTheSame(h, u);
    Fits(Xor, u * 33 % TWO_32, c);
    var product := u * 33 % TWO_32;
    assert ToUint32(h * 33) == product && ToUint32(c) == c;
    WordStays(Bitwise(Xor, product, c));
  }

  /**
   * Every product in the loop is an integer below 2^53 in magnitude, so that no
   * rounding happens and the loop computes djb2 on wrapping 32-bit words.
   */
  lemma {:induction false} DoublesAgreeWithWords(s: Text, i: nat)
    requires i <= |s|
    ensures -EXACT < HashFrom(s, i) * 33 < EXACT
    ensures Djb2(s[i..]) < TWO_32 && ToUint32(HashFrom(s, i)) == Djb2(s[i..])
    decreases |s| - i
  {
    hide Round, Bitwise, Nearest;
    HashIsInt32(s, i);
    if i < |s| {
      assert s[i..][1..] == s[i + 1..];
      DoublesAgreeWithWords(s, i + 1);
      HashIsInt32(s, i + 1);
      RoundOnWords(HashFrom(s, i + 1), Djb2(s[i + 1..]), s[i]);
    }
  }

  // --- The fold and the shard ----------------------------------------------------------------

  /** The operators on the two top bits. */
  lemma SmallWords()
    ensures Bitwise(And, 0, 2) == 0 && Bitwise(And, 1, 2) == 0 && Bitwise(And, 2, 2) == 2 && Bitwise(And, 3, 2) == 2
    ensures Bitwise(And, 0, 1) == 0 && Bitwise(And, 1, 1) == 1
    ensures Bitwise(Or, 0, 0) == 0 && Bitwise(Or, 2, 1) == 3
    ensures Bitwise(Xor, 2, 0) == 2 && Bitwise(Xor, 2, 2) == 0
  {
  }

  /** Two words, each cut at bit `k`, combine part by part. */
  lemma Assembles(g: Gate, k: nat, p: nat, a: nat, low: nat, b: nat, low': nat)
    requires p == Pow2(k) && low < p && low' < p
    ensures Bitwise(g, a * p + low, b * p + low') == Bitwise(g, a, b) * p + Bitwise(g, low, low')
    ensures Bitwise(g, low, low') < p
  {
    hide Bitwise;
    SplitAt(a * p + low, k, p, a, low);
    SplitAt(b * p + low', k, p, b, low');
    BitwiseSplits(g, a * p + low, b * p + low', k);
    UpperLower(Bitwise(g, a * p + low, b * p + low'), k);
  }

  /** `n & 0xbfffffff` clears bit 30. */
  lemma ClearsBit30(u: nat, low: nat)
    requires u < 4 && low < TWO_30
    ensures Bitwise(And, u * TWO_30 + low, 0xbfffffff) == (if u >= 2 then 2 else 0) * TWO_30 + low
  {
    hide Bitwise, Pow2;
    Powers();
    SmallWords();
    Assembles(And, 30, TWO_30, u, low, 2, TWO_30 - 1);
    AndOnes(low, 30);
  }

  /** `n & 0x40000000` of a 31-bit word keeps bit 30 alone. */
  lemma KeepsBit30(u: nat, low: nat)
    requires u < 2 && low < TWO_30
    ensures Bitwise(And, u * TWO_30 + low, TWO_30) == u * TWO_30
  {
    hide Bitwise, Pow2;
    Powers();
    SmallWords();
    Assembles(And, 30, TWO_30, u, low, 1, 0);
    AndZero(low);
  }

  /** Or-ing the sign into bit 30. */
  lemma SetsBit30(u: nat, low: nat)
    requires u < 2 && low < TWO_30
    ensures Bitwise(Or, 2 * u * TWO_30 + low, u * TWO_30) == 3 * u * TWO_30 + low
  {
    hide Bitwise, Pow2;
    Powers();
    SmallWords();
    Assembles(Or, 30, TWO_30, 2 * u, low, u, 0);
    OrZero(low);
  }

  /** The fold keeps the sign and the low 30 bits: it reduces to 31-bit two's complement. */
  lemma HashOptimizeFolds(n: int)
    requires -TWO_31 <= n < TWO_31
    ensures HashOptimize(n) == if n < 0 then n % TWO_30 - TWO_30 else n % TWO_30
  {
    hide Bitwise;
    var u, low := ToUint32(n) / TWO_30, ToUint32(n) % TWO_30;
    var sign := if n < 0 then 1 else 0;
    LowBits(n);
    ClearsBit30(u, low);
    var cleared := 2 * sign * TWO_30 + low;
    assert Bitwise(And, ToUint32(n), 0xbfffffff) == cleared;
    assert ToUint32(Bitwise32(And, n, 0xbfffffff)) == cleared;
    var rest := ToUint32(n) / 2 - sign * TWO_30;
    KeepsBit30(sign, rest);
    assert ToUint32(n) / 2 == sign * TWO_30 + rest;
    assert ToUint32(Bitwise32(And, ToUint32(n) / 2, TWO_30)) == sign * TWO_30;
    SetsBit30(sign, low);
  }

  lemma LowBits(n: int)
    requires -TWO_31 <= n < TWO_31
    ensures ToUint32(n) % TWO_30 == n % TWO_30
    ensures ToUint32(n) / TWO_30 < 4
    ensures ToUint32(n) / TWO_30 >= 2 <==> n < 0
    ensures n < 0 ==> TWO_31 <= ToUint32(n)
    ensures n >= 0 ==> ToUint32(n) == n
  {
  }

  /** The hash is djb2 on 32-bit words over all characters, read as signed and folded to 31 bits. */
  lemma HashIsFoldedDjb2(s: Text)
    ensures var v := ToInt32(Djb2(s));
            Hash(s) == if v < 0 then v % 0x4000_0000 - 0x4000_0000 else v % 0x4000_0000
  {
    hide HashOptimize, Djb2;
    DoublesAgreeWithWords(s, 0);
    assert s[0..] == s;
    HashIsInt32(s, 0);
    SignedReading(HashFrom(s, 0));
    HashOptimizeFolds(HashFrom(s, 0));
  }

  lemma SignedReading(h: int)
    requires -TWO_31 <= h < TWO_31
    ensures ToInt32(ToUint32(h)) == h
  {
  }

  /** The shard is the magnitude of that hash, reduced. */
  lemma ShardFromDjb2(entityId: Text, n: int)
    requires n > 0
    ensures var v := ToInt32(Djb2(entityId));
            var hash := if v < 0 then v % 0x4000_0000 - 0x4000_0000 else v % 0x4000_0000;
            ShardId(entityId, n) == (if hash < 0 then -hash else hash) % n + 1
  {
    hide Hash, Djb2;
    HashIsFoldedDjb2(entityId);
    AbsRemainder(Hash(entityId), n);
  }

  /** The hash starts from 5381 and takes the characters from the last to the first, times 33 each time. */
  lemma LastCharacterFirst(c: Unit, s: Text)
    ensures Djb2([]) == 5381
    ensures Djb2([c] + s) == Bitwise(Xor, Djb2(s) * 33 % 0x1_0000_0000, c)
  {
    hide Bitwise;
    assert ([c] + s)[1..] == s;
  }

  // --- Every character counts -----------------------------------------------------------------

  lemma {:induction false} XorCommutes(a: nat, b: nat)
    ensures Bitwise(Xor, a, b) == Bitwise(Xor, b, a)
  {
    if a != 0 || b != 0 {
      XorCommutes(a / 2, b / 2);
    }
  }

  /** Either operand of an exclusive or can be read off the other and the result. */
  lemma XorDetermines(a: nat, b: nat, c: nat)
    ensures Bitwise(Xor, a, b) == Bitwise(Xor, a, c) <==> b == c
    ensures Bitwise(Xor, b, a) == Bitwise(Xor, c, a) <==> b == c
  {
    hide Bitwise;
    XorUndoes(a, b);
    XorUndoes(a, c);
    XorCommutes(a, b);
    XorCommutes(a, c);
  }

  /** Multiplying by 33 loses nothing modulo 2^30, since 33 is odd. */
  lemma Times33Determines(u: nat, v: nat)
    requires u < 0x4000_0000 && v < 0x4000_0000
    ensures u * 33 % 0x4000_0000 == v * 33 % 0x4000_0000 <==> u == v
  {
    Times33Back(u);
    Times33Back(v);
  }

  lemma Times33Back(u: nat)
    requires u < 0x4000_0000
    ensures u * 33 % 0x4000_0000 * 1041204193 % 0x4000_0000 == u
  {
    var q, r := u * 33 / 0x4000_0000, u * 33 % 0x4000_0000;
    assert u * 33 == 0x4000_0000 * q + r;
    assert r * 1041204193 == u + 0x4000_0000 * (32 * u - 1041204193 * q);
    Shifted(r * 1041204193, u, 32 * u - 1041204193 * q);
  }

  lemma Shifted(x: int, u: nat, m: int)
    requires u < 0x4000_0000 && x == u + 0x4000_0000 * m
    ensures x % 0x4000_0000 == u
  {
  }

  /** The low 30 bits of djb2 make a hash of their own. */
  lemma Low30(s: Text)
    requires s != []
    ensures Djb2(s) % 0x4000_0000 == Bitwise(Xor, Djb2(s[1..]) % 0x4000_0000 * 33 % 0x4000_0000, s[0])
  {
    hide Bitwise, Pow2, Djb2, Lower, Upper;
    var product := Djb2(s[1..]) * 33 % TWO_32;
    Djb2Step(s);
    BitwiseSplits(Xor, product, s[0], 30);
    LowerIs(product);
    LowerIs(s[0]);
    LowerIs(Djb2(s));
    LowProduct(Djb2(s[1..]));
  }

  lemma Djb2Step(s: Text)
    requires s != []
    ensures Djb2(s) == Bitwise(Xor, Djb2(s[1..]) * 33 % TWO_32, s[0])
  {
    hide Bitwise;
  }

  lemma LowerIs(a: nat)
    ensures Lower(a, 30) == a % 0x4000_0000
  {
    Powers();
    SplitAt(a, 30, TWO_30, a / 0x4000_0000, a % 0x4000_0000);
  }

  lemma LowProduct(u: nat)
    ensures u * 33 % TWO_32 % 0x4000_0000 == u % 0x4000_0000 * 33 % 0x4000_0000
  {
  }

  /** Ids of one length that differ in one place differ in the low 30 bits of djb2. */
  lemma {:induction false} Djb2Distinguishes(s: Text, i: nat, c: Unit)
    requires i < |s|
    ensures Djb2(s[i := c]) % 0x4000_0000 == Djb2(s) % 0x4000_0000 <==> s[i] == c
    decreases |s|
  {
    hide Bitwise, Djb2;
    var t := s[i := c];
    Low30(s);
    Low30(t);
    var u, v := Djb2(s[1..]) % 0x4000_0000, Djb2(t[1..]) % 0x4000_0000;
    if i == 0 {
      assert t[1..] == s[1..];
      XorDetermines(u * 33 % 0x4000_0000, s[0], c);
    } else {
      assert t[1..] == s[1..][i - 1 := c];
      Djb2Distinguishes(s[1..], i - 1, c);
      Times33Determines(u, v);
      XorDetermines(s[0], u * 33 % 0x4000_0000, v * 33 % 0x4000_0000);
    }
  }

  /** Changing one character of an id, wherever it stands, always changes its hash. */
  lemma EveryCharacterCounts(s: Text, i: nat, c: Unit)
    requires i < |s|
    ensures Hash(s[i := c]) == Hash(s) <==> s[i] == c
  {
    hide Hash, Djb2;
    Djb2Distinguishes(s, i, c);
    HashKeepsLow30(s);
    HashKeepsLow30(s[i := c]);
    assert s[i] == c ==> s[i := c] == s;
  }

  lemma HashKeepsLow30(s: Text)
    ensures Hash(s) % 0x4000_0000 == Djb2(s) % 0x4000_0000
  {
    hide Hash, Djb2;
    HashIsFoldedDjb2(s);
    LowOfSigned(Djb2(s));
  }

  lemma LowOfSigned(u: nat)
    ensures ToInt32(u) % 0x4000_0000 == u % 0x4000_0000
  {
  }

  lemma AbsRemainder(x: int, n: int)
    requires n > 0
    ensures Abs(Remainder(x, n)) == Abs(x) % n
  {
  }

  /** The folded hash lies in [-2^30, 2^30) and the shard in 1..n. */
  lemma Bounds(entityId: Text, n: int)
    requires n > 0
    ensures -TWO_30 <= Hash(entityId) < TWO_30
    ensures 1 <= ShardId(entityId, n) <= n
    ensures ShardId(entityId, n) == Abs(Hash(entityId)) % n + 1
  {
    HashIsInt32(entityId, 0);
    HashOptimizeFolds(HashFrom(entityId, 0));
    AbsRemainder(Hash(entityId), n);
  }

  // --- One-character ids ------------------------------------------------------------------------

  const START: int := 177573   // 5381 * 33

  lemma OneCharacter(c: Unit)
    ensures Hash([c]) == Bitwise(Xor, START, c)
    ensures 0x20000 <= Bitwise(Xor, START, c) < 0x30000
  {
    hide Bitwise, HashFrom, HashOptimize;
    StartSplits(c);
    OneRound(c);
    HashOptimizeFolds(HashFrom([c], 0));
  }

  lemma OneRound(c: Unit)
    requires Bitwise(Xor, START, c) < TWO_31
    ensures HashFrom([c], 0) == Bitwise(Xor, START, c)
  {
    hide Bitwise, Nearest;
    assert HashFrom([c], 1) == 5381;
    NearestIsExact(START);
    assert Bitwise32(Xor, START, c) == ToInt32(Bitwise(Xor, START, c));
  }

  lemma StartSplits(c: nat)
    requires c < 0x10000
    ensures 0x20000 <= Bitwise(Xor, START, c) < 0x30000
  {
    hide Bitwise, Pow2;
    Powers();
    SmallWords();
    Assembles(Xor, 16, 0x10000, 2, START - 0x20000, 0, c);
  }

  /** Words that agree with `START` from bit 16 on differ from it by one code unit. */
  lemma DifferenceFits(h: int)
    requires 0x20000 <= h < 0x30000
    ensures Bitwise(Xor, START, h) < 0x10000
  {
    hide Bitwise, Pow2;
    Powers();
    SmallWords();
    Assembles(Xor, 16, 0x10000, 2, START - 0x20000, 2, h - 0x20000);
  }

  /** Every value in [0x20000, 0x30000) is the hash of a one-character id. */
  lemma OneCharacterReaches(h: int) returns (c: Unit)
    requires 0x20000 <= h < 0x30000
    ensures Hash([c]) == h
  {
    hide Bitwise, Hash;
    DifferenceFits(h);
    c := Bitwise(Xor, START, h);
    XorUndoes(START, h);
    OneCharacter(c);
  }

  predicate GoesTo(c: Unit, n: int, shard: int)
    requires n > 0
  {
    ShardId([c], n) == shard
  }

  ghost predicate Reached(n: int, shard: int)
    requires n > 0
  {
    exists c: Unit :: GoesTo(c, n, shard)
  }

  ghost predicate AllReached(n: int)
    requires n > 0
  {
    forall shard :: 1 <= shard <= n ==> Reached(n, shard)
  }

  /** One-character ids reach every shard exactly when there are at most 65536 of them. */
  lemma OneCharacterIdsReachEveryShard(n: int)
    requires n > 0
    ensures AllReached(n) <==> n <= 0x10000
  {
    hide Hash, ShardId;
    if n <= 0x10000 {
      forall shard | 1 <= shard <= n ensures Reached(n, shard) {
        var h := 0x20000 + (shard - 1 - 0x20000) % n;
        Congruent(shard - 1, n);
        var c := OneCharacterReaches(h);
        Bounds([c], n);
        assert GoesTo(c, n, shard);
      }
    } else {
      var missed := 0x30000 % n + 1;
      forall c: Unit ensures !GoesTo(c, n, missed) {
        OneCharacter(c);
        Bounds([c], n);
        Apart(Hash([c]), n);
      }
      assert !Reached(n, missed);
    }
  }

  /** The number from 0x20000 on that leaves remainder `r`. */
  lemma Congruent(r: int, n: int)
    requires 0 <= r < n
    ensures (0x20000 + (r - 0x20000) % n) % n == r
  {
    var k := (r - 0x20000) / n;
    assert 0x20000 + (r - 0x20000) % n == (-k) * n + r;
    Remains(-k, n, r);
  }

  lemma Remains(k: int, n: int, r: int)
    requires 0 <= r < n
    ensures (k * n + r) % n == r
  {
    var x := k * n + r;
    assert x == x / n * n + x % n;
    assert (x / n - k) * n == r - x % n;
    Multiple(x / n - k, n);
    Multiple(k - x / n, n);
  }

  /** Closer than `n` to 0x30000 without being it: another remainder. */
  lemma Apart(h: int, n: int)
    requires 0x20000 <= h < 0x30000 && n > 0x10000
    ensures h % n != 0x30000 % n
  {
    var d := 0x30000 / n - h / n;
    assert 0x30000 == 0x30000 / n * n + 0x30000 % n && h == h / n * n + h % n;
    assert d * n == 0x30000 - h - (0x30000 % n - h % n);
    Multiple(d, n);
    Multiple(-d, n);
  }
}

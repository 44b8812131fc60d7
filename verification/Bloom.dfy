/** Cache summaries (internal/cache/bloom.go). FNV-1a over the round number and the key is a parameter. */
module Bloom {
  import opened Bytes
  import opened Arithmetic
  import opened Hashing
  import opened Lru
  import CacheModel
  import Providers
  import Ranking

  type KeyHash = (nat, Bytes) -> nat

  /** A filter as a value: what is sent, and what is kept of a peer. */
  datatype Filter = Filter(bits: Bytes, size: nat, numHash: nat)

  /** Every index a lookup computes is a bit of the filter. */
  predicate WellFormed(f: Filter) {
    f.numHash == 0 || 0 < f.size <= 8 * |f.bits|
  }

  // ----- Single bits -----

  function Pow2(n: nat): nat {
    if n == 0 then 1 else 2 * Pow2(n - 1)
  }

  /** `b & (1 << k) != 0`. */
  predicate HasBit(b: nat, k: nat) {
    if k == 0 then b % 2 == 1 else HasBit(b / 2, k - 1)
  }

  /** `b | (1 << k)`. */
  function WithBit(b: nat, k: nat): nat {
    if k == 0 then b / 2 * 2 + 1 else WithBit(b / 2, k - 1) * 2 + b % 2
  }

  lemma HalvesOf(w: nat, r: nat)
    requires r < 2
    ensures (w * 2 + r) / 2 == w && (w * 2 + r) % 2 == r
  {
  }

  lemma WithBitParts(b: nat, k: nat)
    ensures WithBit(b, k) / 2 == if k == 0 then b / 2 else WithBit(b / 2, k - 1)
    ensures WithBit(b, k) % 2 == if k == 0 then 1 else b % 2
  {
    if k == 0 {
      HalvesOf(b / 2, 1);
    } else {
      HalvesOf(WithBit(b / 2, k - 1), b % 2);
    }
  }

  lemma {:induction false} WithBitSets(b: nat, k: nat, j: nat)
    ensures HasBit(WithBit(b, k), j) <==> j == k || HasBit(b, j)
    decreases k
  {
    hide WithBit;
    WithBitParts(b, k);
    if k > 0 && j > 0 {
      WithBitSets(b / 2, k - 1, j - 1);
    }
  }

  lemma {:induction false} ZeroHasNoBit(k: nat)
    ensures !HasBit(0, k)
  {
    if k > 0 {
      ZeroHasNoBit(k - 1);
    }
  }

  lemma {:induction false} WithBitFits(b: nat, k: nat, n: nat)
    requires k < n && b < Pow2(n)
    ensures WithBit(b, k) < Pow2(n)
    decreases k
  {
    hide WithBit;
    WithBitParts(b, k);
    HalfBelow(b, Pow2(n - 1));
    if k > 0 {
      WithBitFits(b / 2, k - 1, n - 1);
    }
    HalfBelow(WithBit(b, k), Pow2(n - 1));
  }

  lemma HalfBelow(x: nat, m: nat)
    ensures x < 2 * m <==> x / 2 < m
  {
  }

  function SetBit(b: byte, k: nat): byte
    requires k < 8
  {
    assert Pow2(8) == 0x100 by {
      assert Pow2(4) == 16;
    }
    WithBitFits(b as nat, k, 8);
    WithBit(b as nat, k) as byte
  }

  predicate BitAt(bits: Bytes, i: nat)
    requires i < 8 * |bits|
  {
    HasBit(bits[i / 8] as nat, i % 8)
  }

  lemma {:induction false} HasBitIs(b: nat, k: nat)
    ensures Pow2(k) > 0 && (HasBit(b, k) <==> b / Pow2(k) % 2 == 1)
  {
    if k > 0 {
      HasBitIs(b / 2, k - 1);
      HalvesFirst(b, Pow2(k - 1));
    }
  }

  lemma HalvesFirst(b: nat, m: nat)
    requires m > 0
    ensures b / (2 * m) == b / 2 / m
  {
    var q := b / 2 / m;
    var r := b / 2 % m;
    assert b / 2 == q * m + r;
    assert b == q * (2 * m) + (2 * r + b % 2);
    DivModUnique(b, 2 * m, q, 2 * r + b % 2);
  }

  /** Bit `i` is in byte `i / 8`, where it counts 2 to the `i % 8`. */
  lemma BitIs(bits: Bytes, i: nat)
    requires i < 8 * |bits|
    ensures BitAt(bits, i) <==> bits[i / 8] as int / [1, 2, 4, 8, 16, 32, 64, 128][i % 8] % 2 == 1
  {
    HasBitIs(bits[i / 8] as nat, i % 8);
    Powers();
  }

  lemma Powers()
    ensures Pow2(0) == 1 && Pow2(1) == 2 && Pow2(2) == 4 && Pow2(3) == 8
    ensures Pow2(4) == 16 && Pow2(5) == 32 && Pow2(6) == 64 && Pow2(7) == 128
  {
    assert Pow2(3) == 8;
    assert Pow2(5) == 4 * Pow2(3);
  }

  // ----- Lookups -----

  /** Where round `i` of a key lands. */
  function Index(hash: KeyHash, key: Bytes, i: nat, size: nat): nat
    requires size > 0
  {
    hash(i, key) % size
  }

  /** Some round of `key` lands on bit `b`. */
  ghost predicate Hits(hash: KeyHash, key: Bytes, size: nat, numHash: nat, b: nat)
    requires size > 0
  {
    exists i: nat | i < numHash :: Index(hash, key, i, size) == b
  }

  predicate MayContain(f: Filter, hash: KeyHash, key: Bytes)
    requires WellFormed(f)
  {
    forall i: nat | i < f.numHash :: BitAt(f.bits, Index(hash, key, i, f.size))
  }

  /** The lookup from round `n` on; None where the index lies outside the bits and the lookup panics. */
  function LookFrom(f: Filter, hash: KeyHash, key: Bytes, n: nat): Option<bool>
    requires f.size > 0
    decreases f.numHash - n
  {
    if n >= f.numHash then Some(true)
    else
      var idx := Index(hash, key, n, f.size);
      if idx >= 8 * |f.bits| then None
      else if !BitAt(f.bits, idx) then Some(false)
      else LookFrom(f, hash, key, n + 1)
  }

  /**
   * A lookup in any filter, also a received one. None where it fails: the list of indices is longer than the `room`
   * there is in memory, or a size of zero is divided by, or an index lies outside the bits.
   */
  function Lookup(f: Filter, room: nat, hash: KeyHash, key: Bytes): Option<bool> {
    if f.numHash > room then None
    else if f.numHash == 0 then Some(true) else if f.size == 0 then None else LookFrom(f, hash, key, 0)
  }

  /** Round `i` is reached and lands outside the bits. */
  ghost predicate LeavesBits(f: Filter, hash: KeyHash, key: Bytes, i: nat)
    requires f.size > 0
  {
    && Index(hash, key, i, f.size) >= 8 * |f.bits|
    && forall j: nat | j < i :: Index(hash, key, j, f.size) < 8 * |f.bits| && BitAt(f.bits, Index(hash, key, j, f.size))
  }

  lemma {:induction false} LookFromPanics(f: Filter, hash: KeyHash, key: Bytes, n: nat)
    requires f.size > 0
    requires forall j: nat | j < n ::
               Index(hash, key, j, f.size) < 8 * |f.bits| && BitAt(f.bits, Index(hash, key, j, f.size))
    ensures LookFrom(f, hash, key, n).None? <==> exists i: nat | n <= i < f.numHash :: LeavesBits(f, hash, key, i)
    decreases f.numHash - n
  {
    hide BitAt, Index;
    if n < f.numHash {
      var idx := Index(hash, key, n, f.size);
      if idx >= 8 * |f.bits| {
        assert LeavesBits(f, hash, key, n);
      } else if BitAt(f.bits, idx) {
        LookFromPanics(f, hash, key, n + 1);
      }
    }
  }

  /**
   * A lookup fails exactly for lack of room, for a size of zero, or when a round lands outside the bits after none
   * found a zero bit.
   */
  lemma LookupFailsExactlyWhen(f: Filter, room: nat, hash: KeyHash, key: Bytes)
    ensures Lookup(f, room, hash, key).None?
            <==> || f.numHash > room
                 || (f.numHash > 0 && (f.size == 0 || exists i: nat | i < f.numHash :: LeavesBits(f, hash, key, i)))
  {
    if f.size > 0 {
      LookFromPanics(f, hash, key, 0);
    }
  }

  lemma {:induction false} LookFromAnswers(f: Filter, hash: KeyHash, key: Bytes, n: nat)
    requires 0 < f.size <= 8 * |f.bits|
    ensures LookFrom(f, hash, key, n)
         == Some(forall i: nat | n <= i < f.numHash :: BitAt(f.bits, Index(hash, key, i, f.size)))
    decreases f.numHash - n
  {
    hide BitAt;
    if n < f.numHash {
      LookFromAnswers(f, hash, key, n + 1);
    }
  }

  /** Well-formed, and with no more rounds than there is room for. */
  predicate Safe(f: Filter, room: nat) {
    WellFormed(f) && f.numHash <= room
  }

  /** In a safe filter every lookup answers, and answers what the bits say. */
  lemma LookupAnswers(f: Filter, room: nat, hash: KeyHash, key: Bytes)
    requires Safe(f, room)
    ensures Lookup(f, room, hash, key) == Some(MayContain(f, hash, key))
  {
    if f.numHash > 0 {
      LookFromAnswers(f, hash, key, 0);
    }
  }

  /** A filter is safe to look up, whatever the hash and the key, exactly when it is well-formed and there is room. */
  lemma LookupsSafeExactlyWhen(f: Filter, room: nat)
    ensures (forall hash: KeyHash, key :: Lookup(f, room, hash, key).Some?) <==> Safe(f, room)
  {
    if Safe(f, room) {
      forall hash: KeyHash, key ensures Lookup(f, room, hash, key).Some? {
        LookupAnswers(f, room, hash, key);
      }
    } else {
      var outside: KeyHash := (i, key) => 8 * |f.bits|;
      assert f.size > 8 * |f.bits| ==> Index(outside, [], 0, f.size) == 8 * |f.bits|;
      assert Lookup(f, room, outside, []).None?;
    }
  }

  // ----- The wire form -----

  function Serialize(f: Filter): (data: Bytes)
    ensures |data| == 8 + |f.bits|
  {
    PutLE32(f.size) + PutLE32(f.numHash) + f.bits
  }

  function Parse(data: Bytes): Option<Filter> {
    if |data| < 8 then None else Some(Filter(data[8..], GetLE32(data[..4]), GetLE32(data[4..8])))
  }

  /** Parsing gives back the filter exactly when its two header numbers fit in 32 bits. */
  lemma ParseSerialized(f: Filter)
    ensures Parse(Serialize(f)) == Some(Filter(f.bits, f.size % U32, f.numHash % U32))
    ensures Parse(Serialize(f)) == Some(f) <==> f.size < U32 && f.numHash < U32
  {
    LE32RoundTrip(f.size);
    LE32RoundTrip(f.numHash);
    var data := Serialize(f);
    assert data[..4] == PutLE32(f.size) && data[4..8] == PutLE32(f.numHash) && data[8..] == f.bits;
  }

  /** The bytes sent: size and rounds, the lowest byte first, then the bits. */
  lemma SummaryBytes(f: Filter)
    requires f.size < 0x1_0000_0000 && f.numHash < 0x1_0000_0000
    ensures var d := Serialize(f);
            && d[0] as int + 0x100 * d[1] as int + 0x1_0000 * d[2] as int + 0x100_0000 * d[3] as int == f.size
            && d[4] as int + 0x100 * d[5] as int + 0x1_0000 * d[6] as int + 0x100_0000 * d[7] as int == f.numHash
            && d[8..] == f.bits
  {
    LE32RoundTrip(f.size);
    LE32RoundTrip(f.numHash);
    LittleEndianDigits(PutLE32(f.size));
    LittleEndianDigits(PutLE32(f.numHash));
  }

  // ----- Sizing -----

  /** Stand-ins for the natural logarithm and for the logarithm of 2. */
  datatype Logs = Logs(ln: real -> real, ln2: real)

  ghost predicate Lawful(logs: Logs) {
    0.0 < logs.ln2 <= 1.0 && forall x | 0.0 < x < 1.0 :: logs.ln(x) <= 0.0
  }

  function Ceil(x: real): int {
    -(-x).Floor
  }

  function Items(expectedItems: int): nat {
    if expectedItems <= 0 then 100 else expectedItems
  }

  function Rate(fpRate: real): real {
    if fpRate <= 0.0 || fpRate >= 1.0 then 0.01 else fpRate
  }

  /** The number of bits: -n·ln(p)/(ln 2)², rounded up, but at least eight. */
  function SizeFor(items: nat, rate: real, logs: Logs): (size: nat)
    requires logs.ln2 > 0.0
    ensures size >= 8
  {
    SquarePositive(logs.ln2);
    var m := -Times(items as real, logs.ln(rate)) / Times(logs.ln2, logs.ln2);
    if Ceil(m) < 8 then 8 else Ceil(m)
  }

  /** The number of rounds: (m/n)·ln 2, rounded up, but at least one. */
  function RoundsFor(size: nat, items: nat, logs: Logs): (rounds: nat)
    requires items > 0
    ensures rounds >= 1
  {
    var k := Ceil(size as real / items as real * logs.ln2);
    if k < 1 then 1 else k
  }

  lemma CeilBetween(x: real)
    ensures (Ceil(x) - 1) as real < x <= Ceil(x) as real
  {
  }

  /** The size is the least number of bits, from eight on, with size·(ln 2)² ≥ -n·ln p. */
  lemma SizeIsLeast(items: nat, rate: real, logs: Logs)
    requires logs.ln2 > 0.0
    ensures var size, need := SizeFor(items, rate, logs), -Times(items as real, logs.ln(rate));
            && Times(size as real, Times(logs.ln2, logs.ln2)) >= need
            && (size > 8 ==> Times((size - 1) as real, Times(logs.ln2, logs.ln2)) < need)
  {
    SquarePositive(logs.ln2);
    hide Times;
    var q, need := Times(logs.ln2, logs.ln2), -Times(items as real, logs.ln(rate));
    CeilBetween(need / q);
    QuotientTimes(need, q);
    FactorOrder(need / q, SizeFor(items, rate, logs) as real, q);
    FactorOrder((SizeFor(items, rate, logs) - 1) as real, need / q, q);
  }

  lemma QuotientTimes(x: real, q: real)
    requires q > 0.0
    ensures Times(x / q, q) == x
  {
  }

  lemma FactorOrder(x: real, y: real, q: real)
    requires q > 0.0
    ensures x <= y ==> Times(x, q) <= Times(y, q)
    ensures x < y ==> Times(x, q) < Times(y, q)
  {
    if x < y {
      ProductPositive(y - x, q);
    }
  }

  /** The rounds are the least number, from one on, with rounds·n ≥ size·ln 2. */
  lemma RoundsAreLeast(size: nat, items: nat, logs: Logs)
    requires items > 0
    ensures var rounds := RoundsFor(size, items, logs);
            && Times(rounds as real, items as real) >= Times(size as real, logs.ln2)
            && (rounds > 1 ==> Times((rounds - 1) as real, items as real) < Times(size as real, logs.ln2))
  {
    var n := items as real;
    var k := size as real / n * logs.ln2;
    CeilBetween(k);
    assert Times(k, n) == Times(size as real, logs.ln2) by {
      assert size as real / n * n == size as real;
    }
    FactorOrder(k, RoundsFor(size, items, logs) as real, n);
    FactorOrder((RoundsFor(size, items, logs) - 1) as real, k, n);
  }

  /** Arguments out of range stand for 100 items and a rate of one in a hundred. */
  lemma DefaultArguments(items: int, rate: real)
    ensures Items(items) == if items > 0 then items else 100
    ensures 0.0 < Rate(rate) < 1.0 && (0.0 < rate < 1.0 ==> Rate(rate) == rate)
    ensures !(0.0 < rate < 1.0) ==> Rate(rate) * 100.0 == 1.0
  {
  }

  lemma SquarePositive(x: real)
    requires x > 0.0
    ensures Times(x, x) > 0.0
  {
    TimesPositive(x, x);
  }

  lemma RoundsWithin(size: nat, items: nat, logs: Logs)
    requires size >= 1 && items > 0 && 0.0 < logs.ln2 <= 1.0
    ensures RoundsFor(size, items, logs) <= size
  {
    var n, q := items as real, size as real / items as real;
    assert q * n == size as real;
    assert q <= size as real by {
      assert size as real - q == q * (n - 1.0);
    }
    assert q * logs.ln2 <= q;
  }

  /** Some round of the key lands on bit `b`. */
  ghost predicate LandsOn(hash: KeyHash, key: Bytes, size: nat, numHash: nat, b: nat)
    requires size > 0
  {
    exists j: nat | j < numHash :: hash(j, key) % size == b
  }

  /** Some round of some of the keys lands on bit `b`. */
  ghost predicate SomeLandsOn(keys: set<Bytes>, hash: KeyHash, size: nat, numHash: nat, b: nat)
    requires size > 0
  {
    exists k :: k in keys && LandsOn(hash, k, size, numHash, b)
  }

  lemma SameHits(keys: set<Bytes>, hash: KeyHash, size: nat, numHash: nat, b: nat)
    requires size > 0
    ensures SomeLandsOn(keys, hash, size, numHash, b) <==> exists k :: k in keys && Hits(hash, k, size, numHash, b)
  {
    forall k ensures Hits(hash, k, size, numHash, b) <==> LandsOn(hash, k, size, numHash, b) {
      if Hits(hash, k, size, numHash, b) {
        var i: nat :| i < numHash && Index(hash, k, i, size) == b;
        assert hash(i, k) % size == b;
      }
      if LandsOn(hash, k, size, numHash, b) {
        var j: nat :| j < numHash && hash(j, k) % size == b;
        assert Index(hash, k, j, size) == b;
      }
    }
  }

  class BloomFilter {
    const bits: array<byte>
    const size: nat
    const numHash: nat
    const hash: KeyHash
    ghost var keys: set<Bytes>

    function Value(): Filter
      reads bits
    {
      Filter(bits[..], size, numHash)
    }

    /** A bit is set exactly when some added key hashes to it. */
    ghost predicate Valid()
      reads this, bits
    {
      && 0 < size <= 8 * bits.Length
      && forall b | 0 <= b < 8 * bits.Length ::
           BitAt(bits[..], b) <==> exists k :: k in keys && Hits(hash, k, size, numHash, b)
    }

    /** `NewBloomFilter`. */
    constructor (expectedItems: int, fpRate: real, logs: Logs, hash: KeyHash)
      requires Lawful(logs)
      ensures Valid() && fresh(bits) && keys == {} && this.hash == hash
      ensures size == SizeFor(Items(expectedItems), Rate(fpRate), logs) && 8 <= size
      ensures numHash == RoundsFor(size, Items(expectedItems), logs) && 1 <= numHash <= size
      ensures bits.Length == (size + 7) / 8
    {
      var n := SizeFor(Items(expectedItems), Rate(fpRate), logs);
      size, numHash, this.hash, keys := n, RoundsFor(n, Items(expectedItems), logs), hash, {};
      bits := new byte[(n + 7) / 8](_ => 0);
      new;
      RoundsWithin(size, Items(expectedItems), logs);
      forall b | 0 <= b < 8 * bits.Length ensures !BitAt(bits[..], b) {
        ZeroHasNoBit(b % 8);
      }
    }

    /** `BloomFromBytes`, for data of at least eight bytes: whatever the header says. */
    constructor FromBytes(data: Bytes, hash: KeyHash)
      requires |data| >= 8
      ensures Some(Value()) == Parse(data) && fresh(bits) && this.hash == hash
    {
      size, numHash, this.hash, keys := GetLE32(data[..4]), GetLE32(data[4..8]), hash, {};
      bits := new byte[|data| - 8](i requires 0 <= i < |data| - 8 => data[8 + i]);
      new;
      assert bits[..] == data[8..];
    }

    /** `hashes`. */
    method Hashes(key: Bytes) returns (indices: seq<nat>)
      requires size > 0
      ensures |indices| == numHash
      ensures forall i | 0 <= i < numHash :: indices[i] == hash(i, key) % size == Index(hash, key, i, size)
    {
      indices := [];
      for i := 0 to numHash
        invariant |indices| == i && forall j | 0 <= j < i :: indices[j] == Index(hash, key, j, size)
      {
        indices := indices + [hash(i, key) % size];
      }
    }

    method Add(key: Bytes)
      requires Valid()
      modifies this, bits
      ensures Valid() && keys == old(keys) + {key}
    {
      hide BitAt, Hits;
      var indices := Hashes(key);
      ghost var before, known := bits[..], keys;
      SetBits(indices);
      keys := keys + {key};
      forall b | 0 <= b < 8 * bits.Length
        ensures BitAt(bits[..], b) <==> exists k :: k in keys && Hits(hash, k, size, numHash, b) {
        HitsAreIndices(hash, key, size, numHash, indices, b);
        assert BitAt(before, b) <==> exists k :: k in known && Hits(hash, k, size, numHash, b);
        assert key in keys && forall k :: k in keys <==> k == key || k in known;
      }
    }

    /** A lookup, None where it fails; in a filter built by adding keys it never does while there is room. */
    method Contains(key: Bytes, room: nat) returns (r: Option<bool>)
      ensures r == Lookup(Value(), room, hash, key)
      ensures Valid() && numHash <= room ==>
                r == Some(MayContain(Value(), hash, key)) && (key in keys ==> r == Some(true))
    {
      hide BitAt;
      if Valid() && numHash <= room {
        AddedIsContained(key);
        LookupAnswers(Value(), room, hash, key);
      }
      if numHash > room {
        return None;
      }
      if numHash > 0 && size == 0 {
        return None;
      }
      if numHash == 0 {
        return Some(true);
      }
      var indices := Hashes(key);
      for n := 0 to |indices|
        invariant Lookup(Value(), room, hash, key) == LookFrom(Value(), hash, key, n)
      {
        if indices[n] / 8 >= bits.Length {
          return None;
        }
        if !BitAt(bits[..], indices[n]) {
          return Some(false);
        }
      }
      return Some(true);
    }

    lemma AddedIsContained(key: Bytes)
      requires Valid()
      ensures WellFormed(Value())
      ensures key in keys ==> MayContain(Value(), hash, key)
    {
      hide BitAt;
      if key in keys {
        forall i: nat | i < numHash ensures BitAt(bits[..], Index(hash, key, i, size)) {
          assert Hits(hash, key, size, numHash, Index(hash, key, i, size));
        }
      }
    }

    /** A key may be contained exactly when each of its rounds lands where a round of some added key did. */
    lemma ContainedExactlyWhen(key: Bytes)
      requires Valid()
      ensures WellFormed(Value())
      ensures MayContain(Value(), hash, key)
              <==> forall i: nat | i < numHash :: SomeLandsOn(keys, hash, size, numHash, hash(i, key) % size)
    {
      hide BitAt, SomeLandsOn;
      forall i: nat | i < numHash
        ensures BitAt(bits[..], Index(hash, key, i, size))
                <==> SomeLandsOn(keys, hash, size, numHash, hash(i, key) % size)
      {
        SameHits(keys, hash, size, numHash, hash(i, key) % size);
      }
    }

    method SetBits(indices: seq<nat>)
      requires forall i | 0 <= i < |indices| :: indices[i] < 8 * bits.Length
      modifies bits
      ensures forall b | 0 <= b < 8 * bits.Length :: BitAt(bits[..], b) <==> old(BitAt(bits[..], b)) || b in indices
    {
      hide BitAt, SetBit;
      ghost var before := bits[..];
      for n := 0 to |indices|
        invariant forall b | 0 <= b < 8 * bits.Length :: BitAt(bits[..], b) <==> BitAt(before, b) || b in indices[..n]
      {
        var idx := indices[n];
        ghost var was := bits[..];
        bits[idx / 8] := SetBit(bits[idx / 8], idx % 8);
        SetsOneBit(was, idx);
        assert bits[..] == was[idx / 8 := SetBit(was[idx / 8], idx % 8)];
        assert indices[..n + 1] == indices[..n] + [idx];
      }
      assert indices[..|indices|] == indices;
    }
  }

  lemma HitsAreIndices(hash: KeyHash, key: Bytes, size: nat, numHash: nat, indices: seq<nat>, b: nat)
    requires size > 0 && |indices| == numHash
    requires forall i | 0 <= i < numHash :: indices[i] == Index(hash, key, i, size)
    ensures Hits(hash, key, size, numHash, b) <==> b in indices
  {
    if b in indices {
      var i: nat :| i < numHash && indices[i] == b;
      assert Index(hash, key, i, size) == b;
    }
  }

  lemma SetsOneBit(bits: Bytes, idx: nat)
    requires idx < 8 * |bits|
    ensures var after := bits[idx / 8 := SetBit(bits[idx / 8], idx % 8)];
            forall b | 0 <= b < 8 * |bits| :: BitAt(after, b) <==> b == idx || BitAt(bits, b)
  {
    hide HasBit, WithBit, Pow2;
    var after := bits[idx / 8 := SetBit(bits[idx / 8], idx % 8)];
    forall b | 0 <= b < 8 * |bits| ensures BitAt(after, b) <==> b == idx || BitAt(bits, b) {
      if b / 8 == idx / 8 {
        WithBitSets(bits[idx / 8] as nat, idx % 8, b % 8);
      }
    }
  }

  // ----- Exchanging summaries -----

  /** The longest summary a peer accepts (internal/protocol/cachesummary.go). */
  const MAX_SUMMARY := 0x10_0000

  class PeerBloomStore {
    var filters: map<string, Filter>

    constructor ()
      ensures filters == map[]
    {
      filters := map[];
    }

    method Set(p: string, f: Filter)
      modifies this
      ensures filters == old(filters)[p := f]
    {
      filters := filters[p := f];
    }

    method Remove(p: string)
      modifies this
      ensures filters == old(filters) - {p}
    {
      filters := filters - {p};
    }

    /** A peer without a filter is assumed to have nothing. */
    function PeerMayHave(room: nat, hash: KeyHash, p: string, cid: Cid): Option<bool>
      reads this
    {
      MayHave(filters, room, hash, cid)(p)
    }

    /** The callback for a received summary. */
    method OnReceive(from: string, data: Bytes)
      modifies this
      ensures filters == Received(old(filters), from, data)
    {
      var f := Parse(data);
      if f.Some? {
        Set(from, f.value);
      }
    }
  }

  function MayHave(filters: map<string, Filter>, room: nat, hash: KeyHash, cid: Cid): string -> Option<bool> {
    p => if p in filters then Lookup(filters[p], room, hash, cid) else Some(false)
  }

  /** A peer without a summary is not hinted, whatever the block. */
  lemma UnknownPeerNotHinted(filters: map<string, Filter>, room: nat, hash: KeyHash, cid: Cid, p: string)
    requires p !in filters
    ensures MayHave(filters, room, hash, cid)(p) == Some(false)
  {
  }

  /** What a summary makes of the filters kept; one shorter than its header is dropped. */
  function Received(filters: map<string, Filter>, from: string, data: Bytes): map<string, Filter> {
    match Parse(data)
    case None => filters
    case Some(f) => filters[from := f]
  }

  /** The header fits the bits that follow it: no rounds, or no more than fit and a positive size within the bits. */
  predicate HeaderFits(data: Bytes, room: nat)
    requires |data| >= 8
  {
    GetLE32(data[4..8]) == 0 || (GetLE32(data[4..8]) <= room && 0 < GetLE32(data[..4]) <= 8 * (|data| - 8))
  }

  /** No lookup in the filters kept fails. */
  ghost predicate LookupsSafe(filters: map<string, Filter>, room: nat) {
    forall hash: KeyHash, cid, p :: MayHave(filters, room, hash, cid)(p).Some?
  }

  lemma SafeExactlyWhen(filters: map<string, Filter>, room: nat)
    ensures LookupsSafe(filters, room) <==> forall p | p in filters :: Safe(filters[p], room)
  {
    hide Lookup, Safe;
    if LookupsSafe(filters, room) {
      forall p | p in filters ensures Safe(filters[p], room) {
        forall hash: KeyHash, key ensures Lookup(filters[p], room, hash, key).Some? {
          assert MayHave(filters, room, hash, key)(p).Some?;
        }
        LookupsSafeExactlyWhen(filters[p], room);
      }
    }
    if forall p | p in filters :: Safe(filters[p], room) {
      forall hash: KeyHash, cid, p ensures MayHave(filters, room, hash, cid)(p).Some? {
        if p in filters {
          LookupAnswers(filters[p], room, hash, cid);
        }
      }
    }
  }

  /**
   * Receiving arbitrary bytes leaves all lookups safe exactly when the other peers' filters are safe and the bytes
   * are a fitting summary or, being too short, leave a safe filter in place. The code does not check the header.
   */
  lemma SafeAfterReceiptExactlyWhen(filters: map<string, Filter>, room: nat, from: string, data: Bytes)
    ensures LookupsSafe(Received(filters, from, data), room)
            <==> && (forall p | p in filters && p != from :: Safe(filters[p], room))
                 && (if |data| >= 8 then HeaderFits(data, room) else from in filters ==> Safe(filters[from], room))
  {
    var after := Received(filters, from, data);
    SafeExactlyWhen(after, room);
    if |data| >= 8 {
      assert from in after && (Safe(after[from], room) <==> HeaderFits(data, room));
      assert forall p | p in filters && p != from :: p in after && after[p] == filters[p];
    }
  }

  /** Eight bytes are enough: size 0 and one round. Every lookup of their sender fails from then on. */
  lemma UnfitSummary(filters: map<string, Filter>, room: nat, from: string, hash: KeyHash, cid: Cid)
    ensures var data := PutLE32(0) + PutLE32(1);
            Parse(data) == Some(Filter([], 0, 1)) && MayHave(Received(filters, from, data), room, hash, cid)(from).None?
  {
    LE32RoundTrip(0);
    LE32RoundTrip(1);
    var data := PutLE32(0) + PutLE32(1);
    assert data[..4] == PutLE32(0) && data[4..8] == PutLE32(1) && data[8..] == [];
  }

  /** So are nine with the most rounds a header can ask for: well-formed, but a lookup needs 2³² - 1 indices. */
  lemma OverlongSummary(filters: map<string, Filter>, room: nat, from: string, hash: KeyHash, cid: Cid)
    requires room < U32 - 1
    ensures var data := PutLE32(8) + PutLE32(U32 - 1) + [0];
            && Parse(data) == Some(Filter([0], 8, U32 - 1)) && WellFormed(Filter([0], 8, U32 - 1))
            && MayHave(Received(filters, from, data), room, hash, cid)(from).None?
  {
    LE32RoundTrip(8);
    LE32RoundTrip(U32 - 1);
    var data := PutLE32(8) + PutLE32(U32 - 1) + [0];
    assert data[..4] == PutLE32(8) && data[4..8] == PutLE32(U32 - 1) && data[8..] == [0];
  }

  lemma NothingCached(model: CacheModel.Model)
    ensures CacheModel.Keys(model) == {} ==> model == []
  {
    if model != [] {
      assert model[0].key in CacheModel.Keys(model);
    }
  }

  /** `broadcastCacheSummary`: nothing for an empty cache, else a filter holding every cached CID. */
  method BroadcastCacheSummary(cache: LRUCache, logs: Logs, hash: KeyHash)
    returns (data: Option<Bytes>, ghost f: Filter)
    requires cache.Valid() && Lawful(logs)
    ensures data.None? <==> cache.model == []
    ensures data.Some? ==> data.value == Serialize(f) && 0 < f.size <= 8 * |f.bits| && f.numHash <= f.size
    ensures data.Some? ==> forall e | e in cache.model :: MayContain(f, hash, e.key)
    ensures data.Some? ==>
              var n := |CacheModel.Keys(cache.model)|;
              && f.size == SizeFor(if n < 100 then 100 else n, 0.01, logs)
              && f.numHash == RoundsFor(f.size, if n < 100 then 100 else n, logs)
  {
    hide LRUCache.Valid;
    f := Filter([], 0, 0);
    var cids := cache.CIDs();
    ghost var cached := CacheModel.Keys(cache.model);
    assert forall k :: k in cids <==> k in cached by {
      assert forall k :: k in cids <==> k in multiset(cids);
      assert forall k :: k in cached <==> k in multiset(cached);
    }
    assert |cids| == |multiset(cids)| == |multiset(cached)| == |cached|;
    if |cids| == 0 {
      NothingCached(cache.model);
      return None, f;
    }
    assert cids[0] in cached;
    var bf := new BloomFilter(if |cids| < 100 then 100 else |cids|, 0.01, logs, hash);
    for i := 0 to |cids|
      invariant bf.Valid() && fresh(bf) && fresh(bf.bits) && bf.keys == set j | 0 <= j < i :: cids[j]
    {
      bf.Add(cids[i]);
    }
    f := bf.Value();
    forall e | e in cache.model ensures MayContain(f, hash, e.key) {
      assert e.key in cached && e.key in cids;
      bf.AddedIsContained(e.key);
    }
    return Some(Serialize(bf.Value())), f;
  }

  /**
   * A delivered summary of a filter that contains a CID makes its sender a hinted provider of that CID. Ranking then
   * completes exactly when the lookups of the other listed providers do, and puts the sender before every provider
   * without a hint, whatever the path scores.
   */
  lemma SummaryPutsSenderFirst(f: Filter, room: nat, hash: KeyHash, cid: Cid, sender: string,
                               filters: map<string, Filter>, ps: seq<string>, quality: seq<real>)
    requires 0 < f.size <= 8 * |f.bits| && f.numHash <= f.size && f.numHash <= room && MayContain(f, hash, cid)
    requires |Serialize(f)| <= MAX_SUMMARY && |ps| == |quality|
    ensures var after := Received(filters, sender, Serialize(f));
            var hint := MayHave(after, room, hash, cid);
            var ranked := Providers.Pick(ps, Providers.FinalOrder(ps, quality, Providers.Hinted(hint)));
            && after == filters[sender := f] && hint(sender) == Some(true)
            && (Providers.AllAnswer(ps, hint)
                <==> forall i | 0 <= i < |ps| && ps[i] != sender :: MayHave(filters, room, hash, cid)(ps[i]).Some?)
            && forall i, j | 0 <= i < |ranked| && 0 <= j < |ranked| ::
                 ranked[i] == sender && hint(ranked[j]) != Some(true) ==> i < j
  {
    hide Lookup, Providers.Pick, Providers.FinalOrder;
    ParseSerialized(f);
    LookupAnswers(f, room, hash, cid);
    var hint := MayHave(filters[sender := f], room, hash, cid);
    Providers.HintedComeFirst(ps, quality, Providers.Hinted(hint));
  }
}

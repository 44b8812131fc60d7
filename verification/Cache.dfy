/** The cache as a plain sequence of entries, most recently used first. */
module CacheModel {
  import opened Bytes
  import opened Hashing
  import opened Seqs

  datatype Entry = Entry(key: Cid, data: Bytes, fetches: nat)

  type Model = seq<Entry>

  const POPULAR := 3

  ghost predicate DistinctKeys(s: Model) {
    forall i, j | 0 <= i < j < |s| :: s[i].key != s[j].key
  }

  function Keys(s: Model): set<Cid> {
    set e | e in s :: e.key
  }

  function TotalBytes(s: Model): nat {
    if s == [] then 0 else |s[0].data| + TotalBytes(s[1..])
  }

  function PinnedBytes(s: Model, pins: set<Cid>): nat {
    if s == [] then 0 else (if s[0].key in pins then |s[0].data| else 0) + PinnedBytes(s[1..], pins)
  }

  ghost predicate AnyPinned(s: Model, pins: set<Cid>) {
    exists e :: e in s && e.key in pins
  }

  function IndexOf(s: Model, key: Cid): (i: nat)
    requires key in Keys(s)
    ensures i < |s| && s[i].key == key
    ensures forall j | 0 <= j < i :: s[j].key != key
  {
    if s[0].key == key then 0 else
      assert forall e | e in s :: e == s[0] || e in s[1..];
      1 + IndexOf(s[1..], key)
  }

  // ----- Eviction -----

  /** May this entry be the victim? Popular ones only once `anyCount` is set. */
  predicate Eligible(e: Entry, pins: set<Cid>, anyCount: bool) {
    e.key !in pins && (anyCount || e.fetches < POPULAR)
  }

  /** The back-most eligible position at or after `lo`, or -1. */
  function LastEligible(s: Model, pins: set<Cid>, lo: nat, anyCount: bool): (r: int)
    ensures r == -1 || (lo <= r < |s| && Eligible(s[r], pins, anyCount))
  {
    if |s| <= lo then -1
    else if Eligible(s[|s| - 1], pins, anyCount) then |s| - 1
    else LastEligible(s[..|s| - 1], pins, lo, anyCount)
  }

  lemma {:induction false} NoneBehind(s: Model, pins: set<Cid>, lo: nat, anyCount: bool)
    ensures forall j | lo <= j < |s| && j > LastEligible(s, pins, lo, anyCount) :: !Eligible(s[j], pins, anyCount)
  {
    if |s| > lo && !Eligible(s[|s| - 1], pins, anyCount) {
      NoneBehind(s[..|s| - 1], pins, lo, anyCount);
    }
  }

  /** Where the scan from the back stops: after half the list, but after at least one entry. */
  function WindowStart(s: Model): (lo: nat)
    ensures lo <= |s|
  {
    if |s| == 0 then 0 else |s| - (if |s| / 2 < 1 then 1 else |s| / 2)
  }

  function ScanVictim(s: Model, pins: set<Cid>): int {
    LastEligible(s, pins, WindowStart(s), false)
  }

  function Victim(s: Model, pins: set<Cid>): (v: int)
    ensures v == -1 || (0 <= v < |s| && s[v].key !in pins)
  {
    if ScanVictim(s, pins) >= 0 then ScanVictim(s, pins) else LastEligible(s, pins, 0, true)
  }

  lemma VictimExists(s: Model, pins: set<Cid>)
    ensures Victim(s, pins) == -1 <==> forall e | e in s :: e.key in pins
  {
    NoneBehind(s, pins, 0, true);
  }

  /** Every unpinned entry from `from` on loses half its count. */
  function HalvedFrom(s: Model, pins: set<Cid>, from: nat): (d: Model)
    ensures |d| == |s|
  {
    seq(|s|, j requires 0 <= j < |s| =>
      if j >= from && s[j].key !in pins then s[j].(fetches := s[j].fetches / 2) else s[j])
  }

  lemma NotYetHalved(s: Model, pins: set<Cid>, i: nat)
    requires i < |s|
    ensures HalvedFrom(s, pins, i + 1)[i] == s[i]
  {
  }

  lemma HalvedStep(s: Model, pins: set<Cid>, from: nat)
    requires from < |s|
    ensures HalvedFrom(s, pins, from) ==
            if s[from].key in pins then HalvedFrom(s, pins, from + 1)
            else HalvedFrom(s, pins, from + 1)[from := s[from].(fetches := s[from].fetches / 2)]
  {
  }

  /** The first position the scan passes over, going from the front. */
  function SparedFrom(s: Model, pins: set<Cid>): nat {
    if ScanVictim(s, pins) >= 0 then ScanVictim(s, pins) + 1 else WindowStart(s)
  }

  function Demoted(s: Model, pins: set<Cid>): (d: Model)
    ensures |d| == |s|
  {
    HalvedFrom(s, pins, SparedFrom(s, pins))
  }

  lemma SameInDemoted(s: Model, pins: set<Cid>)
    ensures forall i | 0 <= i < |s| :: Demoted(s, pins)[i].key == s[i].key
    ensures (forall e | e in s :: e.key in pins) ==> Demoted(s, pins) == s
  {
  }

  function EvictOldest(s: Model, pins: set<Cid>): Model {
    var v := Victim(s, pins);
    if v == -1 then s else Without(Demoted(s, pins), v)
  }

  /** An unpinned entry below the popularity threshold lies in the back half. */
  ghost predicate ColdBehind(s: Model, pins: set<Cid>, lo: nat) {
    exists i | lo <= i < |s| :: s[i].key !in pins && s[i].fetches < POPULAR
  }

  /**
   * `v` is the back-most unpinned entry below the popularity threshold in the back half or, with none there,
   * the back-most unpinned entry.
   */
  ghost predicate RightVictim(s: Model, pins: set<Cid>, v: nat)
    requires v < |s|
  {
    var lo := if |s| < 4 then |s| - 1 else |s| - |s| / 2;
    && s[v].key !in pins
    && (ColdBehind(s, pins, lo) ==> lo <= v && s[v].fetches < POPULAR &&
                                    forall j | v < j < |s| :: s[j].key in pins || s[j].fetches >= POPULAR)
    && (!ColdBehind(s, pins, lo) ==> forall j | v < j < |s| :: s[j].key in pins)
  }

  /** The others keep their order; those passed over for being popular have their count halved once. */
  ghost predicate SurvivorsKept(s: Model, pins: set<Cid>, t: Model, v: nat)
    requires v < |s|
  {
    var lo := if |s| < 4 then |s| - 1 else |s| - |s| / 2;
    && |t| == |s| - 1
    && forall j | 0 <= j < |s| && j != v ::
         t[Shift(j, v)] == if j >= lo && (ColdBehind(s, pins, lo) ==> j > v) && s[j].key !in pins
                           then s[j].(fetches := s[j].fetches / 2) else s[j]
  }

  /** What one eviction does: nothing if everything is pinned, else exactly one entry goes. */
  lemma EvictOldestEffect(s: Model, pins: set<Cid>)
    ensures (forall e | e in s :: e.key in pins) ==> EvictOldest(s, pins) == s
    ensures (exists e :: e in s && e.key !in pins) ==>
              exists v | 0 <= v < |s| :: RightVictim(s, pins, v) && SurvivorsKept(s, pins, EvictOldest(s, pins), v)
  {
    VictimExists(s, pins);
    if Victim(s, pins) >= 0 {
      VictimIsRight(s, pins);
      SurvivorsAreKept(s, pins);
    }
  }

  lemma VictimIsRight(s: Model, pins: set<Cid>)
    requires Victim(s, pins) >= 0
    ensures RightVictim(s, pins, Victim(s, pins))
    ensures ColdBehind(s, pins, WindowStart(s)) <==> ScanVictim(s, pins) >= 0
  {
    var c, v := ScanVictim(s, pins), Victim(s, pins);
    NoneBehind(s, pins, WindowStart(s), false);
    NoneBehind(s, pins, 0, true);
    if c >= 0 {
      assert s[c].key !in pins && s[c].fetches < POPULAR;
    }
    assert forall j | v < j < |s| :: !Eligible(s[j], pins, c < 0);
  }

  lemma SurvivorsAreKept(s: Model, pins: set<Cid>)
    requires Victim(s, pins) >= 0
    ensures SurvivorsKept(s, pins, EvictOldest(s, pins), Victim(s, pins))
  {
    hide HalvedFrom, Demoted, ColdBehind, Victim, ScanVictim;
    VictimIsRight(s, pins);
    DemotedAt(s, pins);
    SparedIs(s, pins);
    WithoutAt(Demoted(s, pins), Victim(s, pins));
  }

  lemma DemotedAt(s: Model, pins: set<Cid>)
    ensures forall j | 0 <= j < |s| ::
              Demoted(s, pins)[j]
              == if j >= SparedFrom(s, pins) && s[j].key !in pins then s[j].(fetches := s[j].fetches / 2) else s[j]
  {
  }

  lemma SparedIs(s: Model, pins: set<Cid>)
    requires Victim(s, pins) >= 0
    ensures WindowStart(s) == if |s| < 4 then |s| - 1 else |s| - |s| / 2
    ensures SparedFrom(s, pins) == if ScanVictim(s, pins) >= 0 then Victim(s, pins) + 1 else WindowStart(s)
    ensures ScanVictim(s, pins) >= 0 ==> Victim(s, pins) >= WindowStart(s)
  {
  }

  lemma LastEligibleIs(s: Model, pins: set<Cid>, lo: nat, anyCount: bool, c: int)
    requires c == -1 || (lo <= c < |s| && Eligible(s[c], pins, anyCount))
    requires forall j | lo <= j < |s| && j > c :: !Eligible(s[j], pins, anyCount)
    ensures LastEligible(s, pins, lo, anyCount) == c
  {
    NoneBehind(s, pins, lo, anyCount);
  }

  /** No unpinned entry from `from` on is below the popularity threshold. */
  ghost predicate NoneCold(s: Model, pins: set<Cid>, from: nat) {
    forall j | from <= j < |s| :: !Eligible(s[j], pins, false)
  }

  lemma NoneColdStep(s: Model, pins: set<Cid>, c: nat)
    requires c < |s| && NoneCold(s, pins, c + 1) && !Eligible(s[c], pins, false)
    ensures NoneCold(s, pins, c)
  {
  }

  lemma ScanVictimEvicted(s: Model, pins: set<Cid>)
    ensures var c := ScanVictim(s, pins); c >= 0 ==> EvictOldest(s, pins) == Without(Demoted(s, pins), c)
  {
  }

  lemma ScanBegins(s: Model, pins: set<Cid>)
    ensures HalvedFrom(s, pins, |s|) == s && NoneCold(s, pins, |s|)
  {
  }

  lemma ScanStops(s: Model, pins: set<Cid>, c: nat)
    requires WindowStart(s) <= c < |s| && Eligible(s[c], pins, false) && NoneCold(s, pins, c + 1)
    ensures ScanVictim(s, pins) == c && Demoted(s, pins) == HalvedFrom(s, pins, c + 1)
  {
    LastEligibleIs(s, pins, WindowStart(s), false, c);
  }

  lemma ScanFails(s: Model, pins: set<Cid>)
    requires NoneCold(s, pins, WindowStart(s))
    ensures ScanVictim(s, pins) == -1 && Demoted(s, pins) == HalvedFrom(s, pins, WindowStart(s))
  {
    LastEligibleIs(s, pins, WindowStart(s), false, -1);
  }

  lemma SameKeysDistinct(s: Model, t: Model)
    requires DistinctKeys(s) && |s| == |t| && forall i | 0 <= i < |s| :: s[i].key == t[i].key
    ensures DistinctKeys(t)
  {
  }

  lemma TotalUpdate(s: Model, i: nat, e: Entry)
    requires i < |s|
    ensures TotalBytes(s[i := e]) == TotalBytes(s) - |s[i].data| + |e.data|
  {
    TotalWithout(s, i);
    TotalWithout(s[i := e], i);
    assert Without(s[i := e], i) == Without(s, i);
  }

  lemma {:induction false} TotalWithout(s: Model, i: nat)
    requires i < |s|
    ensures TotalBytes(Without(s, i)) == TotalBytes(s) - |s[i].data|
  {
    if i == 0 {
      assert Without(s, 0) == s[1..];
    } else {
      assert Without(s, i)[1..] == Without(s[1..], i - 1);
      TotalWithout(s[1..], i - 1);
    }
  }

  lemma WithoutModel(s: Model, p: nat)
    requires p < |s| && DistinctKeys(s)
    ensures DistinctKeys(Without(s, p)) && s[p].key !in Keys(Without(s, p))
    ensures TotalBytes(Without(s, p)) == TotalBytes(s) - |s[p].data|
  {
    TotalWithout(s, p);
    WithoutFrom(s, p);
    var t := Without(s, p);
    forall i, j | 0 <= i < j < |t| ensures t[i].key != t[j].key {
      assert s[Origin(i, p)].key != s[Origin(j, p)].key;
    }
    forall i | 0 <= i < |t| ensures t[i].key != s[p].key {
      assert t[i] == s[Origin(i, p)];
    }
  }

  lemma ToFrontModel(s: Model, p: nat)
    requires p < |s| && DistinctKeys(s)
    ensures TotalBytes(ToFront(s, p)) == TotalBytes(s) && DistinctKeys(ToFront(s, p))
  {
    WithoutModel(s, p);
    FreshFront(Without(s, p), s[p]);
  }

  lemma FreshFront(s: Model, e: Entry)
    requires DistinctKeys(s) && e.key !in Keys(s)
    ensures DistinctKeys([e] + s) && TotalBytes([e] + s) == TotalBytes(s) + |e.data|
  {
    assert forall x | x in s :: x.key in Keys(s);
    assert ([e] + s)[1..] == s;
  }

  lemma {:induction false} PinnedWithout(s: Model, pins: set<Cid>, i: nat)
    requires i < |s|
    ensures PinnedBytes(Without(s, i), pins) == PinnedBytes(s, pins) - (if s[i].key in pins then |s[i].data| else 0)
  {
    if i == 0 {
      assert Without(s, 0) == s[1..];
    } else {
      assert Without(s, i)[1..] == Without(s[1..], i - 1);
      PinnedWithout(s[1..], pins, i - 1);
    }
  }

  /** Entries that differ in their counts alone. */
  ghost predicate SameButCounts(s: Model, t: Model) {
    |s| == |t| && forall i | 0 <= i < |s| :: s[i].key == t[i].key && s[i].data == t[i].data
  }

  lemma {:induction false} CountsDoNotWeigh(s: Model, t: Model, pins: set<Cid>)
    requires SameButCounts(s, t)
    ensures TotalBytes(s) == TotalBytes(t) && PinnedBytes(s, pins) == PinnedBytes(t, pins)
  {
    if s != [] {
      CountsDoNotWeigh(s[1..], t[1..], pins);
    }
  }

  /** One eviction frees the victim's bytes and touches no pinned entry. */
  lemma EvictOldestBytes(s: Model, pins: set<Cid>)
    requires Victim(s, pins) >= 0
    ensures var t := EvictOldest(s, pins);
            && |t| == |s| - 1
            && TotalBytes(t) == TotalBytes(s) - |s[Victim(s, pins)].data|
            && PinnedBytes(t, pins) == PinnedBytes(s, pins)
            && (AnyPinned(t, pins) <==> AnyPinned(s, pins))
  {
    var d, v := Demoted(s, pins), Victim(s, pins);
    assert SameButCounts(s, d);
    CountsDoNotWeigh(s, d, pins);
    TotalWithout(d, v);
    PinnedWithout(d, pins, v);
    PinnedSurvives(s, d, pins, v);
  }

  lemma PinnedSurvives(s: Model, d: Model, pins: set<Cid>, v: nat)
    requires SameButCounts(s, d) && v < |s| && s[v].key !in pins
    ensures AnyPinned(Without(d, v), pins) <==> AnyPinned(s, pins)
  {
    var t := Without(d, v);
    if AnyPinned(s, pins) {
      var i :| 0 <= i < |s| && s[i].key in pins;
      assert t[Shift(i, v)] == d[i];
    }
    if AnyPinned(t, pins) {
      var i :| 0 <= i < |t| && t[i].key in pins;
      assert t[i] == d[if i < v then i else i + 1];
      assert s[if i < v then i else i + 1] in s;
    }
  }

  lemma SameKeys(s: Model, t: Model)
    requires SameButCounts(s, t)
    ensures Keys(t) <= Keys(s)
  {
    forall k | k in Keys(t) ensures k in Keys(s) {
      var j :| 0 <= j < |t| && t[j].key == k;
      assert s[j].key == k;
    }
  }

  lemma FewerKeys(s: Model, v: nat)
    requires v < |s|
    ensures Keys(Without(s, v)) <= Keys(s)
  {
    WithoutFrom(s, v);
    forall k | k in Keys(Without(s, v)) ensures k in Keys(s) {
      var j :| 0 <= j < |s| - 1 && Without(s, v)[j].key == k;
      assert s[Origin(j, v)].key == k;
    }
  }

  lemma EvictOldestKeys(s: Model, pins: set<Cid>)
    ensures Keys(EvictOldest(s, pins)) <= Keys(s)
  {
    var d, v := Demoted(s, pins), Victim(s, pins);
    assert SameButCounts(s, d);
    hide Keys, SameButCounts, Demoted, Without;
    SameKeys(s, d);
    if v >= 0 {
      FewerKeys(d, v);
    }
  }

  // ----- The loop that makes room -----

  predicate Fits(s: Model, need: nat, maxBytes: int) {
    TotalBytes(s) + need <= maxBytes || |s| == 0
  }

  /** The state of the room-making loop after `n` passes. */
  function EvictTimes(s: Model, pins: set<Cid>, n: nat): Model
    decreases n
  {
    if n == 0 then s else EvictOldest(EvictTimes(s, pins, n - 1), pins)
  }

  /** Can the loop make room at all? A caller can check this before the call. */
  ghost predicate Drains(s: Model, pins: set<Cid>, need: nat, maxBytes: int) {
    PinnedBytes(s, pins) + need <= maxBytes || !AnyPinned(s, pins)
  }

  lemma {:induction false} PinnedAtMostTotal(s: Model, pins: set<Cid>)
    ensures PinnedBytes(s, pins) <= TotalBytes(s)
    ensures (forall e | e in s :: e.key in pins) ==> PinnedBytes(s, pins) == TotalBytes(s)
  {
    if s != [] {
      PinnedAtMostTotal(s[1..], pins);
    }
  }

  lemma DrainsStep(s: Model, pins: set<Cid>, need: nat, maxBytes: int)
    requires Drains(s, pins, need, maxBytes) && !Fits(s, need, maxBytes)
    ensures Victim(s, pins) >= 0
    ensures Drains(EvictOldest(s, pins), pins, need, maxBytes) && |EvictOldest(s, pins)| == |s| - 1
  {
    PinnedAtMostTotal(s, pins);
    VictimExists(s, pins);
    assert s[0] in s;
    EvictOldestBytes(s, pins);
  }

  function MakeRoom(s: Model, pins: set<Cid>, need: nat, maxBytes: int): (t: Model)
    requires Drains(s, pins, need, maxBytes)
    ensures Fits(t, need, maxBytes)
    decreases |s|
  {
    if Fits(s, need, maxBytes) then s else
      DrainsStep(s, pins, need, maxBytes);
      MakeRoom(EvictOldest(s, pins), pins, need, maxBytes)
  }

  /** The loop guard is false after `n` passes. */
  ghost predicate ExitsAfter(s: Model, pins: set<Cid>, need: nat, maxBytes: int, n: nat) {
    Fits(EvictTimes(s, pins, n), need, maxBytes)
  }

  /**
   * The loop ends exactly when it can make room: some number of passes reaches its exit if and only if the pinned
   * bytes and the new block fit together, or nothing cached is pinned.
   */
  lemma LoopEndsExactlyWhen(s: Model, pins: set<Cid>, need: nat, maxBytes: int)
    ensures (exists n: nat :: ExitsAfter(s, pins, need, maxBytes, n)) <==> Drains(s, pins, need, maxBytes)
  {
    if Drains(s, pins, need, maxBytes) {
      var n := PassesNeeded(s, pins, need, maxBytes);
    }
    forall n: nat | ExitsAfter(s, pins, need, maxBytes, n) ensures Drains(s, pins, need, maxBytes) {
      if !Drains(s, pins, need, maxBytes) {
        NeverDrains(s, pins, need, maxBytes, n);
        StuckDoesNotFit(EvictTimes(s, pins, n), pins, need, maxBytes);
      }
    }
  }

  lemma MakeRoomStep(s: Model, pins: set<Cid>, need: nat, maxBytes: int)
    requires Drains(s, pins, need, maxBytes) && !Fits(s, need, maxBytes)
    ensures Drains(EvictOldest(s, pins), pins, need, maxBytes)
    ensures MakeRoom(s, pins, need, maxBytes) == MakeRoom(EvictOldest(s, pins), pins, need, maxBytes)
  {
    DrainsStep(s, pins, need, maxBytes);
  }

  /** `Put` makes room by the least number of passes that ends the loop, and not one more. */
  lemma PassesNeeded(s: Model, pins: set<Cid>, need: nat, maxBytes: int) returns (n: nat)
    requires Drains(s, pins, need, maxBytes)
    ensures ExitsAfter(s, pins, need, maxBytes, n)
    ensures forall k: nat | k < n :: !ExitsAfter(s, pins, need, maxBytes, k)
    ensures MakeRoom(s, pins, need, maxBytes) == EvictTimes(s, pins, n)
  {
    hide EvictOldest, Drains, TotalBytes;
    n := 0;
    var t := s;
    while !Fits(t, need, maxBytes)
      invariant t == EvictTimes(s, pins, n) && Drains(t, pins, need, maxBytes)
      invariant MakeRoom(s, pins, need, maxBytes) == MakeRoom(t, pins, need, maxBytes)
      invariant forall k: nat | k < n :: !ExitsAfter(s, pins, need, maxBytes, k)
      decreases |t|
    {
      DrainsStep(t, pins, need, maxBytes);
      MakeRoomStep(t, pins, need, maxBytes);
      t, n := EvictOldest(t, pins), n + 1;
    }
  }

  lemma StuckDoesNotFit(s: Model, pins: set<Cid>, need: nat, maxBytes: int)
    requires !Drains(s, pins, need, maxBytes)
    ensures !Fits(s, need, maxBytes)
  {
    PinnedAtMostTotal(s, pins);
  }

  lemma StuckStaysStuck(s: Model, pins: set<Cid>, need: nat, maxBytes: int)
    requires !Drains(s, pins, need, maxBytes)
    ensures !Drains(EvictOldest(s, pins), pins, need, maxBytes)
  {
    if Victim(s, pins) >= 0 {
      EvictOldestBytes(s, pins);
    }
  }

  lemma {:induction false} NeverDrains(s: Model, pins: set<Cid>, need: nat, maxBytes: int, n: nat)
    requires !Drains(s, pins, need, maxBytes)
    ensures !Drains(EvictTimes(s, pins, n), pins, need, maxBytes)
    decreases n
  {
    if n > 0 {
      NeverDrains(s, pins, need, maxBytes, n - 1);
      StuckStaysStuck(EvictTimes(s, pins, n - 1), pins, need, maxBytes);
    }
  }

  lemma {:induction false} MakeRoomKeys(s: Model, pins: set<Cid>, need: nat, maxBytes: int)
    requires Drains(s, pins, need, maxBytes)
    ensures Keys(MakeRoom(s, pins, need, maxBytes)) <= Keys(s)
    decreases |s|
  {
    if !Fits(s, need, maxBytes) {
      MakeRoomStep(s, pins, need, maxBytes);
      DrainsStep(s, pins, need, maxBytes);
      EvictOldestKeys(s, pins);
      MakeRoomKeys(EvictOldest(s, pins), pins, need, maxBytes);
    }
  }

  // ----- Operations -----

  function Get(s: Model, key: Cid): Model {
    if key in Keys(s) then
      var i := IndexOf(s, key);
      ToFront(s[i := s[i].(fetches := s[i].fetches + 1)], i)
    else s
  }

  function Lookup(s: Model, key: Cid): Option<Bytes> {
    if key in Keys(s) then Some(s[IndexOf(s, key)].data) else None
  }

  /** Does `Put` return? Only the path that makes room can fail to. */
  ghost predicate PutReturns(s: Model, key: Cid, data: Bytes, pins: set<Cid>, maxBytes: int) {
    key in Keys(s) || Drains(s, pins, |data|, maxBytes)
  }

  function Put(s: Model, key: Cid, data: Bytes, pins: set<Cid>, maxBytes: int): Model
    requires PutReturns(s, key, data, pins, maxBytes)
  {
    if key in Keys(s) then
      var i := IndexOf(s, key);
      ToFront(s[i := s[i].(data := data)], i)
    else [Entry(key, data, 0)] + MakeRoom(s, pins, |data|, maxBytes)
  }

  function Evict(s: Model, key: Cid): Model {
    if key in Keys(s) then Without(s, IndexOf(s, key)) else s
  }

  // ----- What the operations do to the entries -----

  /** A hit's entry after one more fetch; any other entry as it is. */
  function Fetched(e: Entry, key: Cid): Entry {
    if e.key == key then e.(fetches := e.fetches + 1) else e
  }

  lemma WithoutMembers(s: Model, i: nat)
    requires i < |s| && DistinctKeys(s)
    ensures forall e :: e in Without(s, i) <==> e in s && e.key != s[i].key
  {
    ToFrontMembers(s, i);
    WithoutModel(s, i);
    hide Without, DistinctKeys, TotalBytes;
    forall e ensures e in Without(s, i) <==> e in s && e.key != s[i].key {
      assert e in ToFront(s, i) <==> e in s;
      assert e in Without(s, i) ==> e.key in Keys(Without(s, i));
    }
  }

  /** The entries once position `i` was changed and moved to the front. */
  lemma MovedAndChanged(s: Model, i: nat, e: Entry)
    requires i < |s| && DistinctKeys(s)
    ensures ToFront(s[i := e], i) == [e] + Without(s, i) && |[e] + Without(s, i)| == |s|
    ensures forall x :: x in Without(s, i) <==> x in s && x.key != s[i].key
  {
    assert Without(s[i := e], i) == Without(s, i);
    WithoutMembers(s, i);
  }

  /** An entry of the key is the one at its index. */
  lemma OnlyAt(s: Model, key: Cid, e: Entry)
    requires DistinctKeys(s) && e in s && e.key == key
    ensures key in Keys(s) && s[IndexOf(s, key)] == e
  {
    var j :| 0 <= j < |s| && s[j] == e;
    assert e.key in Keys(s);
  }

  /** Where an entry after `Get` comes from. */
  lemma FetchedFrom(s: Model, key: Cid, e: Entry) returns (o: Entry)
    requires DistinctKeys(s) && e in Get(s, key)
    ensures o in s && e == Fetched(o, key)
  {
    hide DistinctKeys, Without;
    o := e;
    if key in Keys(s) {
      var i := IndexOf(s, key);
      var more := s[i].(fetches := s[i].fetches + 1);
      MovedAndChanged(s, i, more);
      if e == more {
        o := s[i];
      }
    } else {
      assert e.key in Keys(s);
    }
  }

  /** A hit counts one fetch for its entry, and for no other, and loses none. */
  lemma GetEffect(s: Model, key: Cid)
    requires DistinctKeys(s)
    ensures |Get(s, key)| == |s|
    ensures forall e | e in s :: (if e.key == key then e.(fetches := e.fetches + 1) else e) in Get(s, key)
    ensures key in Keys(s) ==> Get(s, key)[0].key == key
  {
    hide DistinctKeys, Without;
    if key in Keys(s) {
      var i := IndexOf(s, key);
      MovedAndChanged(s, i, s[i].(fetches := s[i].fetches + 1));
      forall e | e in s ensures (if e.key == key then e.(fetches := e.fetches + 1) else e) in Get(s, key) {
        if e.key == key {
          OnlyAt(s, key, e);
        }
      }
    } else {
      forall e | e in s ensures e.key != key {
        assert e.key in Keys(s);
      }
    }
  }

  /** Where an entry after putting a cached CID again comes from. */
  lemma PutAgainFrom(s: Model, key: Cid, data: Bytes, pins: set<Cid>, maxBytes: int, e: Entry) returns (o: Entry)
    requires DistinctKeys(s) && key in Keys(s) && e in Put(s, key, data, pins, maxBytes)
    ensures o in s && e == if o.key == key then o.(data := data) else o
  {
    hide DistinctKeys, Without;
    var i := IndexOf(s, key);
    MovedAndChanged(s, i, s[i].(data := data));
    o := if e.key == key then s[i] else e;
  }

  /** Putting a cached CID again replaces its data, keeps its count, and touches no other entry. */
  lemma PutAgainEffect(s: Model, key: Cid, data: Bytes, pins: set<Cid>, maxBytes: int)
    requires DistinctKeys(s) && key in Keys(s)
    ensures var t := Put(s, key, data, pins, maxBytes);
            && |t| == |s| && t[0].key == key
            && forall e | e in s :: (if e.key == key then e.(data := data) else e) in t
  {
    hide DistinctKeys, Without;
    var i := IndexOf(s, key);
    MovedAndChanged(s, i, s[i].(data := data));
    forall e | e in s
      ensures (if e.key == key then e.(data := data) else e) in Put(s, key, data, pins, maxBytes)
    {
      if e.key == key {
        OnlyAt(s, key, e);
      }
    }
  }

  /** A block that is new comes in front, never fetched, and the others are what the eviction passes left. */
  lemma PutNewEffect(s: Model, key: Cid, data: Bytes, pins: set<Cid>, maxBytes: int) returns (n: nat)
    requires key !in Keys(s) && Drains(s, pins, |data|, maxBytes)
    ensures Put(s, key, data, pins, maxBytes) == [Entry(key, data, 0)] + EvictTimes(s, pins, n)
    ensures ExitsAfter(s, pins, |data|, maxBytes, n)
    ensures forall k: nat | k < n :: !ExitsAfter(s, pins, |data|, maxBytes, k)
  {
    n := PassesNeeded(s, pins, |data|, maxBytes);
  }

  /** Evict takes the entry of that CID, and it alone. */
  lemma EvictEffect(s: Model, key: Cid)
    requires DistinctKeys(s)
    ensures forall e :: e in Evict(s, key) <==> e in s && e.key != key
  {
    hide DistinctKeys, Without;
    if key in Keys(s) {
      WithoutMembers(s, IndexOf(s, key));
    } else {
      forall e | e in s ensures e.key != key {
        assert e.key in Keys(s);
      }
    }
  }

  /** The others keep their order: `a` before `b` stays so. */
  lemma EvictKeepsOrder(s: Model, key: Cid, a: nat, b: nat) returns (i: nat, j: nat)
    requires a < b < |s| && s[a].key != key && s[b].key != key
    ensures i < j < |Evict(s, key)| && Evict(s, key)[i] == s[a] && Evict(s, key)[j] == s[b]
  {
    if key in Keys(s) {
      var v := IndexOf(s, key);
      WithoutAt(s, v);
      i, j := Shift(a, v), Shift(b, v);
    } else {
      i, j := a, b;
    }
  }

  /** An eviction takes the victim's key and no other, and raises no count. */
  lemma EvictOldestEntries(s: Model, pins: set<Cid>)
    requires Victim(s, pins) >= 0 && DistinctKeys(s)
    ensures var t := EvictOldest(s, pins);
            && Keys(t) == Keys(s) - {s[Victim(s, pins)].key} && DistinctKeys(t)
            && forall e | e in t :: exists o :: o in s && o.key == e.key && e.fetches <= o.fetches
  {
    var d, v := Demoted(s, pins), Victim(s, pins);
    assert SameButCounts(s, d);
    SameKeysDistinct(s, d);
    WithoutModel(d, v);
    WithoutFrom(d, v);
    hide Demoted, Victim;
    DemotedLower(s, pins);
    var t := Without(d, v);
    forall e | e in t ensures e.key != s[v].key && exists o :: o in s && o.key == e.key && e.fetches <= o.fetches {
      var k :| 0 <= k < |t| && t[k] == e;
      assert e == d[Origin(k, v)];
      assert e.key in Keys(t);
      assert s[Origin(k, v)] in s;
    }
    KeysLeft(s, d, v);
  }

  lemma DemotedLower(s: Model, pins: set<Cid>)
    ensures forall i | 0 <= i < |s| :: Demoted(s, pins)[i].fetches <= s[i].fetches
  {
  }

  lemma KeysLeft(s: Model, d: Model, v: nat)
    requires v < |s| && SameButCounts(s, d) && DistinctKeys(s) && DistinctKeys(d)
    ensures Keys(Without(d, v)) == Keys(s) - {s[v].key}
  {
    SameKeys(s, d);
    SameKeys(d, s);
    WithoutMembers(d, v);
    hide Without, DistinctKeys;
    var t := Without(d, v);
    forall k ensures k in Keys(t) <==> k in Keys(d) && k != d[v].key {
      if k in Keys(d) && k != d[v].key {
        var e :| e in d && e.key == k;
        assert e in t;
      }
    }
  }

  /** The keys that making room evicts. */
  function RoomVictims(s: Model, pins: set<Cid>, need: nat, maxBytes: int): set<Cid>
    requires Drains(s, pins, need, maxBytes)
    decreases |s|
  {
    if Fits(s, need, maxBytes) then {} else
      DrainsStep(s, pins, need, maxBytes);
      {s[Victim(s, pins)].key} + RoomVictims(EvictOldest(s, pins), pins, need, maxBytes)
  }

  /** Making room takes the keys of its victims and no other, and raises no count. */
  lemma {:induction false} MakeRoomEntries(s: Model, pins: set<Cid>, need: nat, maxBytes: int)
    requires Drains(s, pins, need, maxBytes) && DistinctKeys(s)
    ensures var t := MakeRoom(s, pins, need, maxBytes);
            && Keys(t) == Keys(s) - RoomVictims(s, pins, need, maxBytes)
            && forall e | e in t :: exists o :: o in s && o.key == e.key && e.fetches <= o.fetches
    decreases |s|
  {
    hide EvictOldest, Drains, TotalBytes, Victim, DistinctKeys, Keys;
    if !Fits(s, need, maxBytes) {
      DrainsStep(s, pins, need, maxBytes);
      MakeRoomStep(s, pins, need, maxBytes);
      EvictOldestEntries(s, pins);
      MakeRoomEntries(EvictOldest(s, pins), pins, need, maxBytes);
    }
  }
}

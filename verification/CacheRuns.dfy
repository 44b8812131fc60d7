/** What holds of the cache after every history of calls. */
module CacheRuns {
  import opened Bytes
  import opened Hashing
  import opened Seqs
  import opened CacheModel

  /** A call, with the pins that held while it ran. */
  datatype Op =
    | Get(key: Cid)
    | Put(key: Cid, data: Bytes, pins: set<Cid>)
    | Evict(key: Cid)

  ghost predicate Returns(s: Model, op: Op, maxBytes: int) {
    op.Put? ==> PutReturns(s, op.key, op.data, op.pins, maxBytes)
  }

  ghost function Apply(s: Model, op: Op, maxBytes: int): Model
    requires Returns(s, op, maxBytes)
  {
    match op
    case Get(k) => CacheModel.Get(s, k)
    case Put(k, d, pins) => CacheModel.Put(s, k, d, pins, maxBytes)
    case Evict(k) => CacheModel.Evict(s, k)
  }

  /** `s` is the cache after the calls `ops`, all of which returned. */
  ghost predicate Reaches(ops: seq<Op>, maxBytes: int, s: Model)
    decreases |ops|
  {
    if ops == [] then s == []
    else exists t: Model :: Reaches(Front(ops), maxBytes, t) && Leads(t, Last(ops), maxBytes, s)
  }

  ghost predicate Leads(t: Model, op: Op, maxBytes: int, s: Model) {
    Returns(t, op, maxBytes) && s == Apply(t, op, maxBytes)
  }

  /** The time of the last `Get` or `Put` of a key, or -1. */
  function LastAccess(ops: seq<Op>, key: Cid): (r: int)
    ensures -1 <= r < |ops|
  {
    if ops == [] then -1
    else if !ops[|ops| - 1].Evict? && ops[|ops| - 1].key == key then |ops| - 1
    else LastAccess(ops[..|ops| - 1], key)
  }

  /** The data of the last `Put` of a key. */
  function LastPut(ops: seq<Op>, key: Cid): Option<Bytes> {
    if ops == [] then None
    else if ops[|ops| - 1].Put? && ops[|ops| - 1].key == key then Some(ops[|ops| - 1].data)
    else LastPut(ops[..|ops| - 1], key)
  }

  /** No `Get` or `Put` of the key comes after position `i`, and there is one at `i` unless it is -1. */
  lemma {:induction false} LastAccessIs(ops: seq<Op>, key: Cid, i: int)
    requires -1 <= i < |ops| && (i >= 0 ==> !ops[i].Evict? && ops[i].key == key)
    requires forall j | i < j < |ops| :: ops[j].Evict? || ops[j].key != key
    ensures LastAccess(ops, key) == i
  {
    if i < |ops| - 1 {
      LastAccessIs(ops[..|ops| - 1], key, i);
    }
  }

  /** No `Put` of the key comes after the one at position `i`. */
  lemma {:induction false} LastPutIs(ops: seq<Op>, key: Cid, i: nat)
    requires i < |ops| && ops[i].Put? && ops[i].key == key
    requires forall j | i < j < |ops| :: !ops[j].Put? || ops[j].key != key
    ensures LastPut(ops, key) == Some(ops[i].data)
  {
    if i < |ops| - 1 {
      LastPutIs(ops[..|ops| - 1], key, i);
    }
  }

  /** Strictly by last access, newest first (hence no key twice), and every entry holds the last block put. */
  ghost predicate Agrees(ops: seq<Op>, s: Model) {
    && (forall i, j | 0 <= i < j < |s| :: LastAccess(ops, s[i].key) > LastAccess(ops, s[j].key))
    && (forall i | 0 <= i < |s| :: LastPut(ops, s[i].key) == Some(s[i].data))
  }

  lemma AgreesWithout(ops: seq<Op>, s: Model, i: nat)
    requires i < |s| && Agrees(ops, s)
    ensures Agrees(ops, Without(s, i))
  {
  }

  lemma AgreesCounts(ops: seq<Op>, s: Model, t: Model)
    requires Agrees(ops, s) && SameButCounts(s, t)
    ensures Agrees(ops, t)
  {
  }

  lemma AgreesEvictOldest(ops: seq<Op>, s: Model, pins: set<Cid>)
    requires Agrees(ops, s) && Victim(s, pins) >= 0
    ensures Agrees(ops, EvictOldest(s, pins))
  {
    var d := Demoted(s, pins);
    assert SameButCounts(s, d);
    hide Agrees;
    AgreesCounts(ops, s, d);
    AgreesWithout(ops, d, Victim(s, pins));
  }

  lemma {:induction false} AgreesMakeRoom(ops: seq<Op>, s: Model, pins: set<Cid>, need: nat, maxBytes: int)
    requires Agrees(ops, s) && Drains(s, pins, need, maxBytes)
    ensures Agrees(ops, MakeRoom(s, pins, need, maxBytes))
    decreases |s|
  {
    hide Agrees, EvictOldest, Drains, Victim;
    if !Fits(s, need, maxBytes) {
      MakeRoomStep(s, pins, need, maxBytes);
      DrainsStep(s, pins, need, maxBytes);
      AgreesEvictOldest(ops, s, pins);
      AgreesMakeRoom(ops, EvictOldest(s, pins), pins, need, maxBytes);
    }
  }

  /** A newly accessed entry in front of the others keeps the order. */
  lemma AgreesFront(ops: seq<Op>, op: Op, e: Entry, s: Model)
    requires Agrees(ops, s) && !op.Evict? && op.key == e.key
    requires forall x | x in s :: x.key != e.key
    requires op.Put? ==> op.data == e.data
    requires op.Get? ==> LastPut(ops, e.key) == Some(e.data)
    ensures Agrees(ops + [op], [e] + s)
  {
    var all, t := ops + [op], [e] + s;
    assert all[..|all| - 1] == ops;
    forall i | 0 < i < |t| ensures LastAccess(all, t[i].key) == LastAccess(ops, s[i - 1].key)
                                && LastPut(all, t[i].key) == LastPut(ops, s[i - 1].key) {
      assert s[i - 1] in s;
    }
  }

  lemma AgreesBehind(ops: seq<Op>, op: Op, s: Model)
    requires Agrees(ops, s) && (op.Evict? || op.key !in Keys(s))
    ensures Agrees(ops + [op], s)
  {
    var all := ops + [op];
    assert all[..|all| - 1] == ops;
    forall i | 0 <= i < |s| ensures LastAccess(all, s[i].key) == LastAccess(ops, s[i].key)
                                 && LastPut(all, s[i].key) == LastPut(ops, s[i].key) {
      assert s[i] in s;
    }
  }

  lemma AgreesStep(ops: seq<Op>, t: Model, op: Op, maxBytes: int, s: Model)
    requires Agrees(ops, t) && Leads(t, op, maxBytes, s)
    ensures Agrees(ops + [op], s)
  {
    if op.key in Keys(t) {
      var i := IndexOf(t, op.key);
      AgreesWithout(ops, t, i);
      if op.Evict? {
        AgreesBehind(ops, op, s);
      } else {
        AgreesFront(ops, op, s[0], Without(t, i));
      }
    } else if op.Put? {
      AgreesMakeRoom(ops, t, op.pins, |op.data|, maxBytes);
      MakeRoomKeys(t, op.pins, |op.data|, maxBytes);
      AgreesFront(ops, op, s[0], s[1..]);
    } else {
      AgreesBehind(ops, op, s);
    }
  }

  lemma NothingCached()
    ensures Agrees([], [])
  {
  }

  /** After every history the cache is in last-access order and serves, under each CID, the last block put there. */
  lemma {:induction false} HistoryAgrees(ops: seq<Op>, maxBytes: int, s: Model)
    requires Reaches(ops, maxBytes, s)
    ensures Agrees(ops, s)
    decreases |ops|
  {
    hide Leads, Agrees;
    if ops == [] {
      NothingCached();
    } else {
      var before, op := Front(ops), Last(ops);
      var t :| Reaches(before, maxBytes, t) && Leads(t, op, maxBytes, s);
      HistoryAgrees(before, maxBytes, t);
      AgreesStep(before, t, op, maxBytes, s);
      assert ops == before + [op];
    }
  }

  /** A hit returns the latest block put under that CID. */
  lemma HitReturnsLatestPut(ops: seq<Op>, maxBytes: int, s: Model, key: Cid)
    requires Reaches(ops, maxBytes, s) && Lookup(s, key).Some?
    ensures Lookup(s, key) == LastPut(ops, key)
  {
    HistoryAgrees(ops, maxBytes, s);
  }

  // ----- The byte bound -----

  /** Within the budget, or a single entry that is over it alone. */
  predicate Bounded(s: Model, maxBytes: int) {
    TotalBytes(s) <= maxBytes || |s| == 1
  }

  /** No CID is ever put with two lengths. */
  ghost predicate OneLengthPerCid(ops: seq<Op>) {
    forall i, j | 0 <= i < |ops| && 0 <= j < |ops| && ops[i].Put? && ops[j].Put? && ops[i].key == ops[j].key ::
      |ops[i].data| == |ops[j].data|
  }

  lemma {:induction false} LastPutIsPut(ops: seq<Op>, key: Cid)
    requires LastPut(ops, key).Some?
    ensures exists i | 0 <= i < |ops| :: ops[i].Put? && ops[i].key == key && ops[i].data == LastPut(ops, key).value
  {
    var n := |ops| - 1;
    if !(ops[n].Put? && ops[n].key == key) {
      LastPutIsPut(ops[..n], key);
    }
  }

  lemma FrontTotal(e: Entry, s: Model)
    ensures TotalBytes([e] + s) == |e.data| + TotalBytes(s) && Keys([e] + s) == {e.key} + Keys(s)
  {
    assert ([e] + s)[1..] == s;
  }

  /** Re-putting a cached CID never makes room, so it keeps the bound exactly when its growth still fits. */
  lemma UpdateKeepsBoundExactlyWhen(s: Model, key: Cid, data: Bytes, pins: set<Cid>, maxBytes: int)
    requires key in Keys(s) && Bounded(s, maxBytes)
    ensures Bounded(CacheModel.Put(s, key, data, pins, maxBytes), maxBytes)
            <==> |s| == 1 || |data| - |s[IndexOf(s, key)].data| <= maxBytes - TotalBytes(s)
  {
    var i := IndexOf(s, key);
    TotalWithout(s, i);
    FrontTotal(s[i].(data := data), Without(s, i));
    assert Without(s[i := s[i].(data := data)], i) == Without(s, i);
  }

  lemma BoundedStep(t: Model, op: Op, maxBytes: int, s: Model)
    requires maxBytes >= 0 && Bounded(t, maxBytes) && Leads(t, op, maxBytes, s)
    requires op.Put? && op.key in Keys(t) ==> |op.data| == |t[IndexOf(t, op.key)].data|
    ensures Bounded(s, maxBytes)
  {
    if op.key in Keys(t) {
      var i := IndexOf(t, op.key);
      TotalWithout(t, i);
      if !op.Evict? {
        FrontTotal(s[0], Without(t, i));
      } else if |t| == 1 {
        assert s == [];
      }
    } else if op.Put? {
      FrontTotal(s[0], s[1..]);
    }
  }

  lemma SameLength(ops: seq<Op>, t: Model, maxBytes: int)
    requires ops != [] && OneLengthPerCid(ops) && Reaches(Front(ops), maxBytes, t)
    requires Last(ops).Put? && Last(ops).key in Keys(t)
    ensures |Last(ops).data| == |t[IndexOf(t, Last(ops).key)].data|
  {
    var before, op := Front(ops), Last(ops);
    HistoryAgrees(before, maxBytes, t);
    LastPutIsPut(before, op.key);
    var i :| 0 <= i < |before| && before[i].Put? && before[i].key == op.key
             && before[i].data == LastPut(before, op.key).value;
    assert ops[i] == before[i];
  }

  /** With one length per CID every reachable cache is within budget or holds exactly one entry. */
  lemma {:induction false} HistoryBounded(ops: seq<Op>, maxBytes: int, s: Model)
    requires maxBytes >= 0 && Reaches(ops, maxBytes, s) && OneLengthPerCid(ops)
    ensures Bounded(s, maxBytes)
    decreases |ops|
  {
    if ops != [] {
      var before, op := Front(ops), Last(ops);
      var t :| Reaches(before, maxBytes, t) && Leads(t, op, maxBytes, s);
      HistoryBounded(before, maxBytes, t);
      if op.Put? && op.key in Keys(t) {
        SameLength(ops, t, maxBytes);
      }
      BoundedStep(t, op, maxBytes, s);
    }
  }

  /** Without it the bound fails: two calls put a longer block under a cached CID, and nothing is evicted. */
  lemma TwoLengthsBreakBound(a: Cid, b: Cid, x: byte)
    requires a != b
    ensures var ops := [Op.Put(a, [x], {}), Op.Put(b, [x], {}), Op.Put(b, [x, x], {})];
            var s := [Entry(b, [x, x], 0), Entry(a, [x], 0)];
            Reaches(ops, 2, s) && !Bounded(s, 2)
  {
    hide Reaches, Keys, TotalBytes;
    var ea, eb, longer := Entry(a, [x], 0), Entry(b, [x], 0), Entry(b, [x, x], 0);
    var o1, o2, o3 := Op.Put(a, [x], {}), Op.Put(b, [x], {}), Op.Put(b, [x, x], {});
    TwoPuts(a, b, x);
    PutFront([o1, o2], 2, [eb, ea], [x, x]);
    assert [o1, o2] + [o3] == [o1, o2, o3] && [eb, ea][1..] == [ea] && [longer] + [ea] == [longer, ea];
    FrontTotal(longer, [ea]);
    OnePut(a, x);
  }

  lemma OnePut(a: Cid, x: byte)
    ensures Reaches([Op.Put(a, [x], {})], 2, [Entry(a, [x], 0)])
    ensures TotalBytes([Entry(a, [x], 0)]) == 1 && Keys([Entry(a, [x], 0)]) == {a}
  {
    hide Reaches, Keys, TotalBytes;
    StartsEmpty(2);
    FrontTotal(Entry(a, [x], 0), []);
    PutNew([], 2, [], a, [x]);
    assert [] + [Op.Put(a, [x], {})] == [Op.Put(a, [x], {})] && [Entry(a, [x], 0)] + [] == [Entry(a, [x], 0)];
  }

  lemma TwoPuts(a: Cid, b: Cid, x: byte)
    requires a != b
    ensures Reaches([Op.Put(a, [x], {}), Op.Put(b, [x], {})], 2, [Entry(b, [x], 0), Entry(a, [x], 0)])
  {
    hide Reaches, Keys, TotalBytes;
    var ea, eb, o1, o2 := Entry(a, [x], 0), Entry(b, [x], 0), Op.Put(a, [x], {}), Op.Put(b, [x], {});
    OnePut(a, x);
    PutNew([o1], 2, [ea], b, [x]);
    assert [o1] + [o2] == [o1, o2] && [eb] + [ea] == [eb, ea];
  }

  lemma StartsEmpty(maxBytes: int)
    ensures Reaches([], maxBytes, []) && Keys([]) == {} && TotalBytes([]) == 0
  {
  }

  /**
   * A history after which a `Put` does not return: one block is cached and pinned, and the next does not fit
   * beside it. The loop passes for ever without evicting anything.
   */
  lemma PutNeverReturns(a: Cid, b: Cid, x: byte)
    requires a != b
    ensures var s := [Entry(a, [x], 0)];
            && Reaches([Op.Put(a, [x], {})], 2, s) && !Returns(s, Op.Put(b, [x, x], {a}), 2)
            && forall n: nat :: EvictTimes(s, {a}, n) == s && !ExitsAfter(s, {a}, |[x, x]|, 2, n)
  {
    var s := [Entry(a, [x], 0)];
    OnePut(a, x);
    assert s[0] in s && s[1..] == [];
    forall n: nat ensures EvictTimes(s, {a}, n) == s && !ExitsAfter(s, {a}, |[x, x]|, 2, n) {
      AllPinnedStays(s, {a}, n);
    }
  }

  lemma {:induction false} AllPinnedStays(s: Model, pins: set<Cid>, n: nat)
    requires forall e | e in s :: e.key in pins
    ensures EvictTimes(s, pins, n) == s
    decreases n
  {
    if n > 0 {
      AllPinnedStays(s, pins, n - 1);
      VictimExists(s, pins);
    }
  }

  lemma PutNew(ops: seq<Op>, maxBytes: int, t: Model, key: Cid, data: Bytes)
    requires Reaches(ops, maxBytes, t) && key !in Keys(t) && TotalBytes(t) + |data| <= maxBytes
    ensures Reaches(ops + [Op.Put(key, data, {})], maxBytes, [Entry(key, data, 0)] + t)
  {
    var op := Op.Put(key, data, {});
    assert Leads(t, op, maxBytes, [Entry(key, data, 0)] + t);
    assert Front(ops + [op]) == ops;
  }

  lemma PutFront(ops: seq<Op>, maxBytes: int, t: Model, data: Bytes)
    requires t != [] && Reaches(ops, maxBytes, t)
    ensures Reaches(ops + [Op.Put(t[0].key, data, {})], maxBytes, [t[0].(data := data)] + t[1..])
  {
    var op := Op.Put(t[0].key, data, {});
    assert t[0] in t && Without(t, 0) == t[1..];
    assert Leads(t, op, maxBytes, [t[0].(data := data)] + t[1..]);
    assert Front(ops + [op]) == ops;
  }

  // ----- Pins -----

  lemma {:induction false} MakeRoomKeepsPinned(s: Model, pins: set<Cid>, need: nat, maxBytes: int)
    requires Drains(s, pins, need, maxBytes)
    ensures forall e | e in s && e.key in pins :: e in MakeRoom(s, pins, need, maxBytes)
    decreases |s|
  {
    if !Fits(s, need, maxBytes) {
      MakeRoomStep(s, pins, need, maxBytes);
      DrainsStep(s, pins, need, maxBytes);
      SurvivorsAreKept(s, pins);
      var t, v := EvictOldest(s, pins), Victim(s, pins);
      forall e | e in s && e.key in pins ensures e in t {
        var j :| 0 <= j < |s| && s[j] == e;
        assert t[Shift(j, v)] == e;
      }
      MakeRoomKeepsPinned(t, pins, need, maxBytes);
    }
  }

  /** No `Put` removes a pinned entry; one for another CID leaves it untouched. */
  lemma PutKeepsPinned(s: Model, key: Cid, data: Bytes, pins: set<Cid>, maxBytes: int, e: Entry)
    requires PutReturns(s, key, data, pins, maxBytes) && DistinctKeys(s)
    requires e in s && e.key in pins
    ensures (if e.key == key then e.(data := data) else e) in CacheModel.Put(s, key, data, pins, maxBytes)
  {
    hide Drains, MakeRoom;
    var t := CacheModel.Put(s, key, data, pins, maxBytes);
    var j :| 0 <= j < |s| && s[j] == e;
    if key in Keys(s) {
      var i := IndexOf(s, key);
      if i != j {
        WithoutAt(s, i);
        assert t[1 + Shift(j, i)] == e;
      } else {
        assert t[0] == e.(data := data);
      }
    } else {
      MakeRoomKeepsPinned(s, pins, |data|, maxBytes);
    }
  }
}

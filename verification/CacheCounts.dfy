/** What is in the cache after a history of calls, and how often it was fetched. */
module CacheCounts {
  import opened Bytes
  import opened Hashing
  import opened Seqs
  import opened CacheModel
  import opened CacheRuns

  lemma {:induction false} ReachesUnique(ops: seq<Op>, maxBytes: int, s: Model, t: Model)
    requires Reaches(ops, maxBytes, s) && Reaches(ops, maxBytes, t)
    ensures s == t
    decreases |ops|
  {
    if ops != [] {
      var s0 :| Reaches(Front(ops), maxBytes, s0) && Leads(s0, Last(ops), maxBytes, s);
      var t0 :| Reaches(Front(ops), maxBytes, t0) && Leads(t0, Last(ops), maxBytes, t);
      ReachesUnique(Front(ops), maxBytes, s0, t0);
    }
  }

  lemma ReachedDistinct(ops: seq<Op>, maxBytes: int, s: Model)
    requires Reaches(ops, maxBytes, s)
    ensures DistinctKeys(s)
  {
    HistoryAgrees(ops, maxBytes, s);
  }

  // ----- What is there -----

  /** The call, made on `t`, chooses `key` as a victim. */
  ghost predicate Evicts(t: Model, op: Op, maxBytes: int, key: Cid) {
    && op.Put? && op.key !in Keys(t) && Drains(t, op.pins, |op.data|, maxBytes)
    && key in RoomVictims(t, op.pins, |op.data|, maxBytes)
  }

  /** The key was put, and since then neither evicted nor chosen as a victim. */
  ghost predicate StillThere(ops: seq<Op>, maxBytes: int, key: Cid)
    decreases |ops|
  {
    ops != [] &&
    var op := Last(ops);
    || (op.Put? && op.key == key)
    || (&& op != Op.Evict(key) && StillThere(Front(ops), maxBytes, key)
        && forall t | Reaches(Front(ops), maxBytes, t) :: !Evicts(t, op, maxBytes, key))
  }

  lemma KeysAfter(t: Model, op: Op, maxBytes: int, s: Model)
    requires DistinctKeys(t) && Leads(t, op, maxBytes, s)
    ensures forall key :: key in Keys(s) <==>
              || (op.Put? && op.key == key)
              || (op != Op.Evict(key) && key in Keys(t) && !Evicts(t, op, maxBytes, key))
  {
    match op
    case Get(k) =>
      GetKeys(t, k);
    case Evict(k) =>
      EvictEffect(t, k);
    case Put(k, d, pins) =>
      if k in Keys(t) {
        PutAgainKeys(t, k, d, pins, maxBytes);
      } else {
        MakeRoomEntries(t, pins, |d|, maxBytes);
        FrontTotal(Entry(k, d, 0), MakeRoom(t, pins, |d|, maxBytes));
      }
  }

  lemma GetKeys(t: Model, key: Cid)
    requires DistinctKeys(t)
    ensures Keys(CacheModel.Get(t, key)) == Keys(t)
  {
    hide CacheModel.Get, DistinctKeys;
    var s := CacheModel.Get(t, key);
    GetEffect(t, key);
    forall k ensures k in Keys(s) <==> k in Keys(t) {
      if k in Keys(t) {
        var e :| e in t && e.key == k;
        assert Fetched(e, key) in s && Fetched(e, key).key == k;
      }
      if k in Keys(s) {
        var e :| e in s && e.key == k;
        var o := FetchedFrom(t, key, e);
      }
    }
  }

  lemma PutAgainKeys(t: Model, key: Cid, data: Bytes, pins: set<Cid>, maxBytes: int)
    requires DistinctKeys(t) && key in Keys(t)
    ensures Keys(CacheModel.Put(t, key, data, pins, maxBytes)) == Keys(t)
  {
    hide CacheModel.Put, DistinctKeys;
    var s := CacheModel.Put(t, key, data, pins, maxBytes);
    PutAgainEffect(t, key, data, pins, maxBytes);
    forall k ensures k in Keys(s) <==> k in Keys(t) {
      if k in Keys(t) {
        var e :| e in t && e.key == k;
        assert (if e.key == key then e.(data := data) else e).key == k;
      }
      if k in Keys(s) {
        var e :| e in s && e.key == k;
        var o := PutAgainFrom(t, key, data, pins, maxBytes, e);
      }
    }
  }

  lemma {:induction false} CachedExactlyWhen(ops: seq<Op>, maxBytes: int, s: Model, key: Cid)
    requires Reaches(ops, maxBytes, s)
    ensures key in Keys(s) <==> StillThere(ops, maxBytes, key)
    decreases |ops|
  {
    hide Evicts, Leads;
    if ops != [] {
      var t :| Reaches(Front(ops), maxBytes, t) && Leads(t, Last(ops), maxBytes, s);
      CachedExactlyWhen(Front(ops), maxBytes, t, key);
      ReachedDistinct(Front(ops), maxBytes, t);
      KeysAfter(t, Last(ops), maxBytes, s);
      forall u | Reaches(Front(ops), maxBytes, u) ensures u == t {
        ReachesUnique(Front(ops), maxBytes, t, u);
      }
    }
  }

  /** A key is a hit exactly when it was put and since then neither evicted nor chosen as a victim. */
  lemma HitExactlyWhen(ops: seq<Op>, maxBytes: int, s: Model, key: Cid)
    requires Reaches(ops, maxBytes, s)
    ensures Lookup(s, key).Some? <==> StillThere(ops, maxBytes, key)
  {
    CachedExactlyWhen(ops, maxBytes, s, key);
  }

  // ----- Fetch counts -----

  /** The last `Put` or `Evict` of the key is a `Put`. */
  predicate PutLast(ops: seq<Op>, key: Cid) {
    if ops == [] then false
    else if Last(ops).key == key && !Last(ops).Get? then Last(ops).Put?
    else PutLast(Front(ops), key)
  }

  /** The `Get`s of a key since it was put where it was not. */
  function GetsSince(ops: seq<Op>, key: Cid): nat {
    if ops == [] then 0
    else if Last(ops) == Op.Evict(key) then 0
    else GetsSince(Front(ops), key) + (if Last(ops) == Op.Get(key) && PutLast(Front(ops), key) then 1 else 0)
  }

  /** Counts never exceed the fetches made; if `exact`, they equal them, and what was put is there. */
  ghost predicate Counted(ops: seq<Op>, s: Model, exact: bool) {
    && (forall e | e in s :: CountedEntry(ops, e, exact))
    && (exact ==> forall key | PutLast(ops, key) :: key in Keys(s))
  }

  ghost predicate CountedEntry(ops: seq<Op>, e: Entry, exact: bool) {
    && PutLast(ops, e.key) && e.fetches <= GetsSince(ops, e.key)
    && (exact ==> e.fetches == GetsSince(ops, e.key))
  }

  /** No call of the history had to evict anything to make room. */
  ghost predicate Calm(ops: seq<Op>, maxBytes: int)
    decreases |ops|
  {
    ops == [] ||
    var op := Last(ops);
    && Calm(Front(ops), maxBytes)
    && (op.Put? ==> forall t | Reaches(Front(ops), maxBytes, t) && op.key !in Keys(t) :: Fits(t, |op.data|, maxBytes))
  }

  lemma {:induction false} NotPutNoGets(ops: seq<Op>, key: Cid)
    requires !PutLast(ops, key)
    ensures GetsSince(ops, key) == 0
  {
    if ops != [] && Last(ops) != Op.Evict(key) {
      NotPutNoGets(Front(ops), key);
    }
  }

  /** How one more call changes what `PutLast` and `GetsSince` say. */
  lemma OneMoreCall(ops: seq<Op>, key: Cid)
    requires ops != []
    ensures PutLast(ops, key)
         == if Last(ops).key == key && !Last(ops).Get? then Last(ops).Put? else PutLast(Front(ops), key)
    ensures GetsSince(ops, key)
         == if Last(ops) == Op.Evict(key) then 0
            else GetsSince(Front(ops), key) + (if Last(ops) == Op.Get(key) && PutLast(Front(ops), key) then 1 else 0)
  {
  }

  lemma FetchedCounted(ops: seq<Op>, key: Cid, e: Entry, exact: bool)
    requires ops != [] && Last(ops) == Op.Get(key) && CountedEntry(Front(ops), e, exact)
    ensures CountedEntry(ops, Fetched(e, key), exact)
  {
    hide PutLast, GetsSince;
    OneMoreCall(ops, e.key);
  }

  /** A `Put` adds no fetch, and may find the count lowered. */
  lemma PutCounted(ops: seq<Op>, before: Entry, e: Entry, exact: bool)
    requires ops != [] && Last(ops).Put? && CountedEntry(Front(ops), before, exact)
    requires e.key == before.key && e.fetches <= before.fetches && (exact ==> e.fetches == before.fetches)
    ensures CountedEntry(ops, e, exact)
  {
    hide PutLast, GetsSince;
    OneMoreCall(ops, e.key);
  }

  lemma GetCounted(ops: seq<Op>, t: Model, exact: bool)
    requires ops != [] && Last(ops).Get? && Counted(Front(ops), t, exact) && DistinctKeys(t)
    ensures Counted(ops, CacheModel.Get(t, Last(ops).key), exact)
  {
    hide PutLast, GetsSince, CacheModel.Get, DistinctKeys, CountedEntry, Keys;
    var key := Last(ops).key;
    GetKeys(t, key);
    forall e | e in CacheModel.Get(t, key) ensures CountedEntry(ops, e, exact) {
      var o := FetchedFrom(t, key, e);
      FetchedCounted(ops, key, o, exact);
    }
    forall k | PutLast(ops, k) ensures PutLast(Front(ops), k) {
      OneMoreCall(ops, k);
    }
  }

  lemma EvictCounted(ops: seq<Op>, t: Model, exact: bool)
    requires ops != [] && Last(ops).Evict? && Counted(Front(ops), t, exact) && DistinctKeys(t)
    ensures Counted(ops, CacheModel.Evict(t, Last(ops).key), exact)
  {
    hide PutLast, GetsSince, CacheModel.Evict, DistinctKeys;
    var key := Last(ops).key;
    var s := CacheModel.Evict(t, key);
    EvictEffect(t, key);
    forall e | e in s ensures CountedEntry(ops, e, exact) {
      assert CountedEntry(Front(ops), e, exact);
      OneMoreCall(ops, e.key);
    }
    forall k | exact && PutLast(ops, k) ensures k in Keys(s) {
      OneMoreCall(ops, k);
      var e :| e in t && e.key == k;
      assert e in s;
    }
  }

  lemma PutAgainCounted(ops: seq<Op>, t: Model, maxBytes: int, exact: bool)
    requires ops != [] && Last(ops).Put? && Last(ops).key in Keys(t)
    requires Counted(Front(ops), t, exact) && DistinctKeys(t)
    ensures Counted(ops, CacheModel.Put(t, Last(ops).key, Last(ops).data, Last(ops).pins, maxBytes), exact)
  {
    hide PutLast, GetsSince, CacheModel.Put, DistinctKeys, CountedEntry, Keys;
    var op := Last(ops);
    var s := CacheModel.Put(t, op.key, op.data, op.pins, maxBytes);
    PutAgainKeys(t, op.key, op.data, op.pins, maxBytes);
    forall e | e in s ensures CountedEntry(ops, e, exact) {
      var o := PutAgainFrom(t, op.key, op.data, op.pins, maxBytes, e);
      PutCounted(ops, o, e, exact);
    }
    forall k | PutLast(ops, k) && exact ensures k in Keys(s) {
      OneMoreCall(ops, k);
    }
  }

  lemma RoomFrom(t: Model, pins: set<Cid>, need: nat, maxBytes: int, e: Entry) returns (o: Entry)
    requires DistinctKeys(t) && Drains(t, pins, need, maxBytes) && e in MakeRoom(t, pins, need, maxBytes)
    ensures o in t && o.key == e.key && e.fetches <= o.fetches
    ensures Fits(t, need, maxBytes) ==> o == e
  {
    if Fits(t, need, maxBytes) {
      RoomAlready(t, pins, need, maxBytes);
      o := e;
    } else {
      MakeRoomEntries(t, pins, need, maxBytes);
      o :| o in t && o.key == e.key && e.fetches <= o.fetches;
    }
  }

  lemma FreshCounted(ops: seq<Op>, exact: bool)
    requires ops != [] && Last(ops).Put? && (exact ==> !PutLast(Front(ops), Last(ops).key))
    ensures CountedEntry(ops, Entry(Last(ops).key, Last(ops).data, 0), exact)
  {
    hide PutLast, GetsSince;
    OneMoreCall(ops, Last(ops).key);
    if exact {
      NotPutNoGets(Front(ops), Last(ops).key);
    }
  }

  lemma PutNewCounted(ops: seq<Op>, t: Model, maxBytes: int, exact: bool)
    requires ops != [] && Last(ops).Put? && Last(ops).key !in Keys(t)
    requires Counted(Front(ops), t, exact) && DistinctKeys(t)
    requires Drains(t, Last(ops).pins, |Last(ops).data|, maxBytes)
    requires exact ==> Fits(t, |Last(ops).data|, maxBytes)
    ensures Counted(ops, CacheModel.Put(t, Last(ops).key, Last(ops).data, Last(ops).pins, maxBytes), exact)
  {
    hide PutLast, GetsSince, DistinctKeys, Drains, Fits, CountedEntry, Keys, MakeRoom;
    var op := Last(ops);
    var rest := MakeRoom(t, op.pins, |op.data|, maxBytes);
    var entry := Entry(op.key, op.data, 0);
    assert [entry] + rest == CacheModel.Put(t, op.key, op.data, op.pins, maxBytes);
    hide CacheModel.Put;
    FrontTotal(entry, rest);
    FreshCounted(ops, exact);
    forall e | e in [entry] + rest ensures CountedEntry(ops, e, exact) {
      if e != entry {
        var o := RoomFrom(t, op.pins, |op.data|, maxBytes, e);
        PutCounted(ops, o, e, exact);
      }
    }
    if exact {
      RoomAlready(t, op.pins, |op.data|, maxBytes);
    }
    forall k | PutLast(ops, k) && exact ensures k in Keys([entry] + rest) {
      OneMoreCall(ops, k);
    }
  }

  lemma RoomAlready(t: Model, pins: set<Cid>, need: nat, maxBytes: int)
    requires Drains(t, pins, need, maxBytes) && Fits(t, need, maxBytes)
    ensures MakeRoom(t, pins, need, maxBytes) == t
  {
  }

  lemma {:induction false} HistoryCounted(ops: seq<Op>, maxBytes: int, s: Model, exact: bool)
    requires Reaches(ops, maxBytes, s) && (exact ==> Calm(ops, maxBytes))
    ensures Counted(ops, s, exact)
    decreases |ops|
  {
    hide Counted, DistinctKeys, CacheModel.Get, CacheModel.Put, CacheModel.Evict;
    if ops == [] {
      NoneCounted(exact);
    } else {
      var op := Last(ops);
      var t :| Reaches(Front(ops), maxBytes, t) && Leads(t, op, maxBytes, s);
      HistoryCounted(Front(ops), maxBytes, t, exact);
      ReachedDistinct(Front(ops), maxBytes, t);
      if op.Get? {
        GetCounted(ops, t, exact);
      } else if op.Evict? {
        EvictCounted(ops, t, exact);
      } else if op.key in Keys(t) {
        PutAgainCounted(ops, t, maxBytes, exact);
      } else {
        PutNewCounted(ops, t, maxBytes, exact);
      }
    }
  }

  lemma NoneCounted(exact: bool)
    ensures Counted([], [], exact)
  {
  }

  /** Whatever was evicted or demoted, a count is never more than the fetches since the block was put. */
  lemma CountAtMostGets(ops: seq<Op>, maxBytes: int, s: Model, e: Entry)
    requires Reaches(ops, maxBytes, s) && e in s
    ensures e.fetches <= GetsSince(ops, e.key)
  {
    HistoryCounted(ops, maxBytes, s, false);
    assert CountedEntry(ops, e, false);
  }

  /** While nothing had to be evicted, an entry's count is exactly the fetches since the block was put. */
  lemma CountIsGets(ops: seq<Op>, maxBytes: int, s: Model, e: Entry)
    requires Reaches(ops, maxBytes, s) && Calm(ops, maxBytes) && e in s
    ensures e.fetches == GetsSince(ops, e.key)
  {
    HistoryCounted(ops, maxBytes, s, true);
    assert CountedEntry(ops, e, true);
  }

  /**
   * So a block fetched three times since it was put is not the next victim while an unpinned block fetched less often
   * lies in the back half.
   */
  lemma PopularNotVictim(ops: seq<Op>, maxBytes: int, s: Model, pins: set<Cid>, e: Entry, cold: nat)
    requires Reaches(ops, maxBytes, s) && Calm(ops, maxBytes) && e in s && GetsSince(ops, e.key) >= 3
    requires |s| - (if |s| < 4 then 1 else |s| / 2) <= cold < |s|
    requires s[cold].key !in pins && GetsSince(ops, s[cold].key) < 3
    ensures Victim(s, pins) >= 0 && s[Victim(s, pins)].key != e.key
    ensures GetsSince(ops, s[Victim(s, pins)].key) < 3 && e.key in Keys(EvictOldest(s, pins))
  {
    hide GetsSince, Calm, EvictOldest;
    ReachedDistinct(ops, maxBytes, s);
    CountIsGets(ops, maxBytes, s, e);
    CountIsGets(ops, maxBytes, s, s[cold]);
    VictimExists(s, pins);
    VictimIsRight(s, pins);
    EvictOldestEntries(s, pins);
    var v := Victim(s, pins);
    CountIsGets(ops, maxBytes, s, s[v]);
    assert ColdBehind(s, pins, if |s| < 4 then |s| - 1 else |s| - |s| / 2);
    assert e.key in Keys(s);
  }
}

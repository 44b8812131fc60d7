/** The cache as the program keeps it: an index, a recency list and a byte counter (internal/cache/lru.go). */
module Lru {
  import opened Bytes
  import opened Hashing
  import opened Chunker
  import opened Stores
  import CacheModel
  import opened Seqs

  class CacheEntry {
    const key: Cid
    var block: Block
    var size: int
    var fetchCount: int

    constructor (block: Block)
      ensures key == block.cid && this.block == block && size == |block.data| && fetchCount == 0
    {
      this.key, this.block, this.size, this.fetchCount := block.cid, block, |block.data|, 0;
    }

    ghost predicate Mirrors(e: CacheModel.Entry)
      reads this
    {
      block == Block(key, e.data) && key == e.key && size == |e.data| && fetchCount == e.fetches
    }
  }

  /** Where an element sits in the recency list. */
  function Position(es: seq<CacheEntry>, e: CacheEntry): (p: nat)
    requires e in es
    ensures p < |es| && es[p] == e
  {
    if es[0] == e then 0 else 1 + Position(es[1..], e)
  }

  /** The index knows exactly the listed elements, each under its own key. */
  ghost predicate Indexes(items: map<Cid, CacheEntry>, es: seq<CacheEntry>) {
    && (forall e | e in es :: e.key in items && items[e.key] == e)
    && (forall k | k in items :: items[k] in es && items[k].key == k)
  }

  ghost predicate MirrorsAll(es: seq<CacheEntry>, m: CacheModel.Model)
    reads es
  {
    |es| == |m| && forall i | 0 <= i < |m| :: es[i].Mirrors(m[i])
  }

  lemma MirrorsToFront(es: seq<CacheEntry>, m: CacheModel.Model, p: nat)
    requires MirrorsAll(es, m) && p < |es|
    ensures MirrorsAll(ToFront(es, p), ToFront(m, p))
  {
  }

  lemma MirrorsWithout(es: seq<CacheEntry>, m: CacheModel.Model, p: nat)
    requires MirrorsAll(es, m) && p < |es|
    ensures MirrorsAll(Without(es, p), Without(m, p))
  {
  }

  lemma IndexesToFront(items: map<Cid, CacheEntry>, es: seq<CacheEntry>, p: nat)
    requires Indexes(items, es) && p < |es|
    ensures Indexes(items, ToFront(es, p))
  {
    ToFrontMembers(es, p);
  }

  lemma IndexesWithout(items: map<Cid, CacheEntry>, es: seq<CacheEntry>, m: CacheModel.Model, p: nat)
    requires Indexes(items, es) && p < |es| && MirrorsAll(es, m) && CacheModel.DistinctKeys(m)
    ensures Indexes(items - {es[p].key}, Without(es, p))
    ensures forall e | e in Without(es, p) :: e in es
  {
    WithoutAt(es, p);
    WithoutFrom(es, p);
    forall k | k in items && k != es[p].key ensures items[k] in Without(es, p) {
      var j := Position(es, items[k]);
      assert Without(es, p)[Shift(j, p)] == items[k];
    }
    forall j | 0 <= j < |es| - 1 ensures Without(es, p)[j] in es && Without(es, p)[j].key != es[p].key {
      assert m[Origin(j, p)].key != m[p].key;
    }
  }

  lemma MirrorsPushed(es: seq<CacheEntry>, m: CacheModel.Model, entry: CacheEntry, e: CacheModel.Entry)
    requires MirrorsAll(es, m) && entry.Mirrors(e)
    ensures MirrorsAll([entry] + es, [e] + m)
  {
  }

  lemma IndexesPushed(items: map<Cid, CacheEntry>, es: seq<CacheEntry>, entry: CacheEntry)
    requires Indexes(items, es) && entry.key !in items
    ensures Indexes(items[entry.key := entry], [entry] + es)
  {
    var grown, all := items[entry.key := entry], [entry] + es;
    forall k | k in grown ensures grown[k] in all && grown[k].key == k {
      assert k == entry.key || (k in items && items[k] in es);
    }
  }

  lemma Located(items: map<Cid, CacheEntry>, es: seq<CacheEntry>, m: CacheModel.Model, key: Cid)
    requires Indexes(items, es) && MirrorsAll(es, m) && CacheModel.DistinctKeys(m)
    ensures key in items <==> key in CacheModel.Keys(m)
    ensures key in items ==> CacheModel.IndexOf(m, key) == Position(es, items[key])
  {
    if key in items {
      assert m[Position(es, items[key])] in m;
    }
    if key in CacheModel.Keys(m) {
      assert es[CacheModel.IndexOf(m, key)] in es;
    }
  }

  lemma TakeOne(rest: set<Cid>, cid: Cid)
    requires cid in rest
    ensures multiset(rest) == multiset{cid} + multiset(rest - {cid})
  {
  }

  function Found(data: Option<Bytes>, cid: Cid): Option<Block> {
    match data case Some(d) => Some(Block(cid, d)) case None => None
  }

  class LRUCache {
    const maxBytes: int
    var items: map<Cid, CacheEntry>
    var eviction: seq<CacheEntry> // front = most recently used
    var currentBytes: int
    var hits: int
    var misses: int
    var pinChecker: Store?
    ghost var model: CacheModel.Model
    ghost var repr: set<CacheEntry> // every entry ever listed

    ghost predicate Valid()
      reads `items, `eviction, `currentBytes, `model, `repr, repr
    {
      && (forall e | e in eviction :: e in repr)
      && |eviction| == |model| && MirrorsAll(eviction, model)
      && CacheModel.DistinctKeys(model)
      && Indexes(items, eviction)
      && currentBytes == CacheModel.TotalBytes(model)
    }

    ghost function Pins(): set<Cid>
      reads this, pinChecker
    {
      if pinChecker == null then {} else pinChecker.Pinned()
    }

    constructor (maxBytes: int)
      ensures Valid() && model == [] && repr == {}
      ensures this.maxBytes == maxBytes && pinChecker == null && hits == misses == 0
    {
      this.maxBytes := maxBytes;
      items, eviction, currentBytes, hits, misses, pinChecker, model, repr := map[], [], 0, 0, 0, null, [], {};
    }

    method SetPinChecker(pc: Store)
      requires Valid()
      modifies `pinChecker
      ensures Valid() && pinChecker == pc
    {
      pinChecker := pc;
    }

    /** `container/list.MoveToFront`. */
    method MoveToFront(p: nat)
      requires Valid() && p < |eviction|
      modifies `eviction, `model
      ensures Valid() && model == ToFront(old(model), p)
      ensures eviction == ToFront(old(eviction), p)
    {
      hide CacheModel.DistinctKeys, Indexes, MirrorsAll, CacheModel.TotalBytes;
      MirrorsToFront(eviction, model, p);
      IndexesToFront(items, eviction, p);
      CacheModel.ToFrontModel(model, p);
      ToFrontMembers(eviction, p);
      eviction, model := ToFront(eviction, p), ToFront(model, p);
    }

    method Get(cid: Cid) returns (r: Option<Block>)
      requires Valid()
      modifies this, repr
      ensures Valid() && pinChecker == old(pinChecker) && repr == old(repr)
      ensures model == CacheModel.Get(old(model), cid)
      ensures r == Found(CacheModel.Lookup(old(model), cid), cid)
      ensures hits == old(hits) + (if r.Some? then 1 else 0)
      ensures misses == old(misses) + (if r.None? then 1 else 0)
    {
      hide CacheModel.DistinctKeys, Indexes, CacheModel.TotalBytes, CacheModel.Keys, MirrorsAll;
      Located(items, eviction, model, cid);
      if cid in items {
        var entry := items[cid];
        Touch(Position(eviction, entry), entry);
        hits := hits + 1;
        return Some(entry.block);
      }
      misses := misses + 1;
      return None;
    }

    /** One more fetch, and to the front. */
    method Touch(p: nat, entry: CacheEntry)
      requires Valid() && p < |eviction| && eviction[p] == entry
      modifies entry`fetchCount, `eviction, `model
      ensures Valid()
      ensures model == ToFront(old(model)[p := old(model)[p].(fetches := old(model)[p].fetches + 1)], p)
      ensures entry.block == Block(old(model)[p].key, old(model)[p].data)
    {
      hide CacheModel.DistinctKeys, Indexes, CacheModel.TotalBytes;
      SetFetchCount(p, entry, entry.fetchCount + 1);
      MoveToFront(p);
    }

    method SetFetchCount(p: nat, entry: CacheEntry, count: nat)
      requires Valid() && p < |eviction| && eviction[p] == entry
      modifies entry`fetchCount, `model
      ensures Valid() && model == old(model)[p := old(model)[p].(fetches := count)]
    {
      ghost var updated := model[p := model[p].(fetches := count)];
      CacheModel.CountsDoNotWeigh(model, updated, {});
      ListedOnce(p, entry);
      entry.fetchCount := count;
      model := updated;
    }

    method RemoveElement(p: nat)
      requires Valid() && p < |eviction|
      modifies `items, `eviction, `currentBytes, `model
      ensures Valid() && model == Without(old(model), p)
    {
      hide CacheModel.DistinctKeys, CacheModel.TotalBytes, CacheModel.Keys;
      var entry := eviction[p];
      MirrorsWithout(eviction, model, p);
      IndexesWithout(items, eviction, model, p);
      CacheModel.WithoutModel(model, p);
      eviction := Without(eviction, p);
      items := items - {entry.key};
      currentBytes := currentBytes - entry.size;
      model := Without(model, p);
    }

    predicate Protected(cid: Cid)
      reads `pinChecker, pinChecker
      ensures Protected(cid) <==> cid in Pins()
    {
      pinChecker != null && pinChecker.IsPinned(cid)
    }

    /** Second-chance eviction: scan the back half, else fall back to the least recently used unpinned entry. */
    method EvictOldest()
      requires Valid()
      modifies `items, `eviction, `currentBytes, `model, repr`fetchCount
      ensures Valid() && model == CacheModel.EvictOldest(old(model), Pins())
    {
      hide Valid, CacheModel.EvictOldest, CacheModel.Demoted, CacheModel.ScanVictim, Without;
      ghost var s := model;
      CacheModel.ScanVictimEvicted(s, Pins());
      var candidate := FindUnpopular();
      if candidate >= 0 {
        RemoveElement(candidate);
      } else {
        RemoveLeastRecent(s);
      }
    }

    /** The second-chance scan of `EvictOldest`: the position of its victim, or -1. */
    method FindUnpopular() returns (victim: int)
      requires Valid()
      modifies `model, repr`fetchCount
      ensures Valid() && -1 <= victim < |eviction| && victim == CacheModel.ScanVictim(old(model), Pins())
      ensures model == CacheModel.Demoted(old(model), Pins())
    {
      hide Indexes, CacheModel.DistinctKeys, CacheModel.TotalBytes;
      hide CacheModel.NoneCold, CacheModel.HalvedFrom, CacheModel.Demoted, CacheModel.ScanVictim;
      ghost var s, pins := model, Pins();
      var candidate := |eviction| - 1;
      var checked := 0;
      var maxCheck := |eviction| / 2;
      if maxCheck < 1 {
        maxCheck := 1;
      }
      ghost var lo := CacheModel.WindowStart(s);
      CacheModel.ScanBegins(s, pins);
      while candidate >= 0 && checked < maxCheck
        invariant lo <= candidate + 1 <= |s| == |eviction| && candidate == |s| - 1 - checked
        invariant lo == if |s| == 0 then 0 else |s| - maxCheck
        invariant Valid()
        invariant model == CacheModel.HalvedFrom(s, pins, candidate + 1)
        invariant CacheModel.NoneCold(s, pins, candidate + 1)
        decreases candidate
      {
        var cold := Inspect(candidate, s);
        if cold {
          CacheModel.ScanStops(s, pins, candidate);
          return candidate;
        }
        CacheModel.NoneColdStep(s, pins, candidate);
        candidate, checked := candidate - 1, checked + 1;
      }
      CacheModel.ScanFails(s, pins);
      return -1;
    }

    /** One entry of the scan: a pinned one is passed over, a popular one too but at half its count. */
    method Inspect(candidate: nat, ghost s: CacheModel.Model) returns (cold: bool)
      requires Valid() && candidate < |eviction|
      requires |s| == |model| && model == CacheModel.HalvedFrom(s, Pins(), candidate + 1)
      modifies `model, repr`fetchCount
      ensures Valid()
      ensures cold <==> CacheModel.Eligible(s[candidate], Pins(), false)
      ensures model == CacheModel.HalvedFrom(s, Pins(), if cold then candidate + 1 else candidate)
    {
      hide Indexes, CacheModel.HalvedFrom, CacheModel.DistinctKeys, CacheModel.TotalBytes;
      var entry := eviction[candidate];
      CacheModel.NotYetHalved(s, Pins(), candidate);
      assert entry.key == s[candidate].key && entry.fetchCount == s[candidate].fetches;
      CacheModel.HalvedStep(s, Pins(), candidate);
      if Protected(entry.key) {
        return false;
      }
      if entry.fetchCount < CacheModel.POPULAR {
        return true;
      }
      SetFetchCount(candidate, entry, entry.fetchCount / 2);
      return false;
    }

    /** The fallback scan of `EvictOldest`. */
    method RemoveLeastRecent(ghost s: CacheModel.Model)
      requires Valid() && model == CacheModel.Demoted(s, Pins()) && CacheModel.ScanVictim(s, Pins()) == -1
      modifies `items, `eviction, `currentBytes, `model
      ensures Valid() && model == CacheModel.EvictOldest(s, Pins())
    {
      hide CacheModel.Demoted, CacheModel.DistinctKeys, CacheModel.TotalBytes, CacheModel.LastEligible;
      hide Indexes, Without;
      ghost var pins := Pins();
      CacheModel.SameInDemoted(s, pins);
      var candidate := |eviction| - 1;
      while candidate >= 0
        invariant -1 <= candidate < |eviction|
        invariant forall j | candidate < j < |s| :: s[j].key in pins
      {
        if Protected(eviction[candidate].key) {
          candidate := candidate - 1;
          continue;
        }
        CacheModel.LastEligibleIs(s, pins, 0, true, candidate);
        RemoveElement(candidate);
        return;
      }
      CacheModel.LastEligibleIs(s, pins, 0, true, -1);
      assert model == s;
    }

    /** `Put`. The call returns exactly under its precondition (`CacheModel.LoopEndsExactlyWhen`). */
    method Put(b: Block)
      requires Valid()
      requires CacheModel.PutReturns(model, b.cid, b.data, Pins(), maxBytes)
      modifies this, repr
      ensures Valid() && model == CacheModel.Put(old(model), b.cid, b.data, old(Pins()), maxBytes)
      ensures pinChecker == old(pinChecker) && hits == old(hits) && misses == old(misses) && fresh(repr - old(repr))
    {
      hide CacheModel.DistinctKeys, Indexes, CacheModel.TotalBytes, CacheModel.MakeRoom;
      Located(items, eviction, model, b.cid);
      if b.cid in items {
        var entry := items[b.cid];
        var p := Position(eviction, entry);
        Replace(p, entry, b);
        MoveToFront(p);
      } else {
        var blockSize := |b.data|;
        CacheModel.MakeRoomKeys(model, Pins(), blockSize, maxBytes);
        EvictUntilRoom(blockSize);
        var entry := new CacheEntry(b);
        PushFront(entry);
      }
    }

    /** The loop at the heart of `Put`. */
    method EvictUntilRoom(blockSize: nat)
      requires Valid() && CacheModel.Drains(model, Pins(), blockSize, maxBytes)
      modifies `items, `eviction, `currentBytes, `model, repr`fetchCount
      ensures Valid()
      ensures model == CacheModel.MakeRoom(old(model), Pins(), blockSize, maxBytes)
    {
      hide CacheModel.DistinctKeys, Indexes, CacheModel.EvictOldest;
      ghost var s, pins := model, Pins();
      while currentBytes + blockSize > maxBytes && |eviction| > 0
        invariant Valid() && Pins() == pins
        invariant CacheModel.Drains(model, pins, blockSize, maxBytes)
        invariant CacheModel.MakeRoom(model, pins, blockSize, maxBytes)
               == CacheModel.MakeRoom(s, pins, blockSize, maxBytes)
        decreases |model|
      {
        CacheModel.DrainsStep(model, pins, blockSize, maxBytes);
        CacheModel.MakeRoomStep(model, pins, blockSize, maxBytes);
        EvictOldest();
      }
    }

    method PushFront(entry: CacheEntry)
      requires Valid() && entry.key !in CacheModel.Keys(model)
      requires entry.block.cid == entry.key && entry.size == |entry.block.data| && entry.fetchCount == 0
      modifies `items, `eviction, `currentBytes, `model, `repr
      ensures Valid() && model == [CacheModel.Entry(entry.key, entry.block.data, 0)] + old(model)
      ensures repr == old(repr) + {entry}
    {
      hide CacheModel.DistinctKeys, Indexes, MirrorsAll, CacheModel.TotalBytes;
      Located(items, eviction, model, entry.key);
      IndexesPushed(items, eviction, entry);
      ghost var front := CacheModel.Entry(entry.key, entry.block.data, 0);
      CacheModel.FreshFront(model, front);
      MirrorsPushed(eviction, model, entry, front);
      items := items[entry.key := entry];
      eviction := [entry] + eviction;
      repr := repr + {entry};
      currentBytes := currentBytes + entry.size;
      model := [front] + model;
    }

    /** The data of a cached CID is overwritten in place. */
    method Replace(p: nat, entry: CacheEntry, b: Block)
      requires Valid() && p < |eviction| && eviction[p] == entry && b.cid == entry.key
      modifies entry, `currentBytes, `model
      ensures Valid() && model == old(model)[p := old(model)[p].(data := b.data)]
    {
      hide Indexes, CacheModel.TotalBytes;
      ghost var updated := model[p := model[p].(data := b.data)];
      CacheModel.TotalUpdate(model, p, updated[p]);
      CacheModel.SameKeysDistinct(model, updated);
      ListedOnce(p, entry);
      currentBytes := currentBytes - entry.size;
      entry.block := b;
      entry.size := |b.data|;
      currentBytes := currentBytes + |b.data|;
      model := updated;
    }

    lemma ListedOnce(p: nat, entry: CacheEntry)
      requires Valid() && p < |eviction| && eviction[p] == entry
      ensures forall i | 0 <= i < |eviction| && i != p :: eviction[i] != entry
    {
      assert forall i | 0 <= i < |model| :: eviction[i].key == model[i].key;
    }

    method Evict(cid: Cid)
      requires Valid()
      modifies `items, `eviction, `currentBytes, `model
      ensures Valid() && model == CacheModel.Evict(old(model), cid)
    {
      Located(items, eviction, model, cid);
      if cid in items {
        RemoveElement(Position(eviction, items[cid]));
      }
    }

    /** `CIDs`, in the map's own arbitrary order. */
    method CIDs() returns (cids: seq<Cid>)
      requires Valid()
      ensures multiset(cids) == multiset(CacheModel.Keys(model))
    {
      assert items.Keys == CacheModel.Keys(model) by {
        forall k ensures k in items.Keys <==> k in CacheModel.Keys(model) {
          Located(items, eviction, model, k);
        }
      }
      cids := Listed(items.Keys);
    }

    /** Ranging over a map's keys, in an arbitrary order. */
    static method Listed(keys: set<Cid>) returns (cids: seq<Cid>)
      ensures multiset(cids) == multiset(keys)
    {
      cids := [];
      var rest := keys;
      while rest != {}
        invariant rest <= keys && multiset(cids) + multiset(rest) == multiset(keys)
      {
        var cid :| cid in rest;
        TakeOne(rest, cid);
        cids, rest := cids + [cid], rest - {cid};
      }
    }
  }
}

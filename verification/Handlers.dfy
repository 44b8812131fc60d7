/** The stream handlers of a node (internal/protocol/blocktransfer.go). */
module Handlers {
  import opened Bytes
  import opened Hashing
  import opened Chunker
  import opened Stores
  import opened Lru
  import opened Wire
  import CacheModel

  /** What is left to read of a request whose sender closed its side, and what has been written back. */
  class Stream {
    var input: Bytes
    var output: Bytes

    constructor (input: Bytes)
      ensures this.input == input && output == []
    {
      this.input, output := input, [];
    }

    method ReadFull(n: nat) returns (got: Option<Bytes>)
      modifies `input
      ensures |old(input)| < n ==> got == None
      ensures |old(input)| >= n ==> got == Some(old(input)[..n]) && input == old(input)[n..]
    {
      if |input| < n {
        input := [];
        return None;
      }
      got, input := Some(input[..n]), input[n..];
    }

    method Write(data: Bytes)
      modifies `output
      ensures output == old(output) + data
    {
      output := output + data;
    }

    /** The length-prefixed CID both handlers start with. */
    method ReadCid() returns (r: Option<Cid>)
      modifies `input
      ensures match DecodeCid(old(input))
              case None => r == None
              case Some((cid, rest)) => r == Some(cid) && input == rest
    {
      var prefix := ReadFull(2);
      if prefix.None? {
        return None;
      }
      var cidLen := GetBE16(prefix.value);
      if cidLen > MAX_CID {
        return None;
      }
      r := ReadFull(cidLen);
      assert |old(input)| >= 2 + cidLen ==> old(input)[2..][..cidLen] == old(input)[2..2 + cidLen];
    }

    /** The length-prefixed data that follows the CID of a push. */
    method ReadData() returns (r: Option<Bytes>)
      modifies `input
      ensures r == DecodeData(old(input))
    {
      var prefix := ReadFull(4);
      if prefix.None? {
        return None;
      }
      var dataLen := GetBE32(prefix.value);
      if dataLen > MAX_PUSH {
        return None;
      }
      r := ReadFull(dataLen);
      assert |old(input)| >= 4 + dataLen ==> old(input)[4..][..dataLen] == old(input)[4..4 + dataLen];
    }
  }

  /** Cache first, then disk. */
  function Available(blocks: map<Cid, Bytes>, cache: CacheModel.Model): Cid -> Option<Bytes> {
    cid =>
      match CacheModel.Lookup(cache, cid)
      case Some(data) => Some(data)
      case None => if cid in blocks then Some(blocks[cid]) else None
  }

  /** Does serving this request return? It caches what it serves. */
  ghost predicate ServeReturns(blocks: map<Cid, Bytes>, cache: CacheModel.Model, pins: set<Cid>, maxBytes: int,
                               cid: Cid)
  {
    Available(blocks, cache)(cid).Some? ==>
      CacheModel.PutReturns(CacheModel.Get(cache, cid), cid, Available(blocks, cache)(cid).value, pins, maxBytes)
  }

  function CacheAfterServe(blocks: map<Cid, Bytes>, cache: CacheModel.Model, pins: set<Cid>, maxBytes: int, cid: Cid)
    : CacheModel.Model
    requires ServeReturns(blocks, cache, pins, maxBytes, cid)
  {
    match Available(blocks, cache)(cid)
    case None => CacheModel.Get(cache, cid)
    case Some(data) => CacheModel.Put(CacheModel.Get(cache, cid), cid, data, pins, maxBytes)
  }

  class BlockTransferHandler {
    const store: Store
    const cache: LRUCache

    constructor (store: Store, cache: LRUCache)
      ensures this.store == store && this.cache == cache
    {
      this.store, this.cache := store, cache;
    }

    method LookupBlock(cid: Cid) returns (r: Option<Block>)
      requires cache.Valid()
      modifies cache, cache.repr
      ensures cache.Valid() && cache.pinChecker == old(cache.pinChecker) && cache.repr == old(cache.repr)
      ensures cache.model == CacheModel.Get(old(cache.model), cid)
      ensures r == Found(Available(store.blocks, old(cache.model))(cid), cid)
    {
      r := cache.Get(cid);
      if r.None? {
        r := store.Get(cid);
      }
    }

    method WriteNotFound(s: Stream, cid: Cid)
      modifies s`output
      ensures s.output == old(s.output) + EncodeReply(cid, None)
    {
      s.Write([0]);
      var message := Ascii("block not found: ") + cid;
      s.Write(PutBE16(|message|));
      s.Write(message);
    }

    method WriteFound(s: Stream, block: Block)
      modifies s`output
      ensures s.output == old(s.output) + EncodeReply(block.cid, Some(block.data))
    {
      s.Write([1]);
      s.Write(PutBE32(|block.data|));
      s.Write(block.data);
    }

    method HandleStream(s: Stream)
      requires cache.Valid()
      requires match DecodeCid(s.input)
               case None => true
               case Some((cid, _)) => ServeReturns(store.blocks, cache.model, cache.Pins(), cache.maxBytes, cid)
      modifies s, cache, cache.repr
      ensures cache.Valid() && cache.pinChecker == old(cache.pinChecker)
      ensures s.output == old(s.output) + AnswerFetch(old(s.input), Available(store.blocks, old(cache.model)))
      ensures match DecodeCid(old(s.input))
              case None => cache.model == old(cache.model)
              case Some((cid, _)) =>
                cache.model == CacheAfterServe(store.blocks, old(cache.model), old(cache.Pins()), cache.maxBytes, cid)
    {
      hide CacheModel.Get, CacheModel.Put, CacheModel.PutReturns, CacheModel.Lookup, EncodeReply, LRUCache.Valid;
      var request := s.ReadCid();
      if request.None? {
        return;
      }
      var cid := request.value;
      var found := LookupBlock(cid);
      if found.None? {
        WriteNotFound(s, cid);
        return;
      }
      cache.Put(found.value);
      WriteFound(s, found.value);
    }
  }

  /** What accepting a pushed block leaves behind. */
  ghost predicate PushReturns(cache: CacheModel.Model, pins: set<Cid>, maxBytes: int, outcome: PushOutcome) {
    outcome.Accepted? ==> CacheModel.PutReturns(cache, outcome.block.cid, outcome.block.data, pins, maxBytes)
  }

  function CacheAfterPush(cache: CacheModel.Model, pins: set<Cid>, maxBytes: int, outcome: PushOutcome)
    : CacheModel.Model
    requires PushReturns(cache, pins, maxBytes, outcome)
  {
    if outcome.Accepted? then CacheModel.Put(cache, outcome.block.cid, outcome.block.data, pins, maxBytes) else cache
  }

  function BlocksAfterPush(blocks: map<Cid, Bytes>, outcome: PushOutcome): map<Cid, Bytes> {
    if outcome.Accepted? then blocks[outcome.block.cid := outcome.block.data] else blocks
  }

  class BlockPushHandler {
    const store: Store
    const cache: LRUCache

    constructor (store: Store, cache: LRUCache)
      ensures this.store == store && this.cache == cache
    {
      this.store, this.cache := store, cache;
    }

    method HandleStream(sha: Sha, s: Stream)
      requires cache.Valid()
      requires PushReturns(cache.model, cache.Pins(), cache.maxBytes, DecodePush(sha, s.input))
      modifies s, store`blocks, cache, cache.repr
      ensures cache.Valid() && cache.pinChecker == old(cache.pinChecker)
      ensures s.output == old(s.output) + Ack(DecodePush(sha, old(s.input)))
      ensures store.blocks == BlocksAfterPush(old(store.blocks), DecodePush(sha, old(s.input)))
      ensures cache.model ==
              CacheAfterPush(old(cache.model), old(cache.Pins()), cache.maxBytes, DecodePush(sha, old(s.input)))
    {
      hide CacheModel.Put, CacheModel.PutReturns, DecodeCid, DecodeData, LRUCache.Valid;
      var request := s.ReadCid();
      if request.None? {
        return;
      }
      var cid := request.value;
      var body := s.ReadData();
      if body.None? {
        return;
      }
      var data := body.value;
      if ComputeCID(sha, data) != cid {
        s.Write([0]);
        return;
      }
      store.Put(Block(cid, data));
      cache.Put(Block(cid, data));
      s.Write([1]);
    }
  }

  /** A cached block is served from the cache, even if the disk holds another; any other from disk. */
  lemma CacheBeforeDisk(blocks: map<Cid, Bytes>, cache: CacheModel.Model, cid: Cid)
    requires CacheModel.DistinctKeys(cache)
    ensures forall e | e in cache && e.key == cid :: Available(blocks, cache)(cid) == Some(e.data)
    ensures (forall e | e in cache :: e.key != cid) ==>
              Available(blocks, cache)(cid) == if cid in blocks then Some(blocks[cid]) else None
  {
    forall e | e in cache && e.key == cid ensures Available(blocks, cache)(cid) == Some(e.data) {
      CacheModel.OnlyAt(cache, cid, e);
    }
  }

  /** What was served is then in front of the cache, with its count one higher if it was cached. */
  lemma ServedIsCached(blocks: map<Cid, Bytes>, cache: CacheModel.Model, pins: set<Cid>, maxBytes: int, cid: Cid)
    requires CacheModel.DistinctKeys(cache) && ServeReturns(blocks, cache, pins, maxBytes, cid)
    ensures var after, found := CacheAfterServe(blocks, cache, pins, maxBytes, cid), Available(blocks, cache)(cid);
            && (found.None? ==> after == cache)
            && (found.Some? ==> after != [] && after[0].key == cid && after[0].data == found.value)
            && forall e | e in cache && e.key == cid :: after[0].fetches == e.fetches + 1
  {
    if cid in CacheModel.Keys(cache) {
      ServedFromCache(blocks, cache, pins, maxBytes, cid);
    }
  }

  lemma ServedFromCache(blocks: map<Cid, Bytes>, cache: CacheModel.Model, pins: set<Cid>, maxBytes: int, cid: Cid)
    requires CacheModel.DistinctKeys(cache) && ServeReturns(blocks, cache, pins, maxBytes, cid)
    requires cid in CacheModel.Keys(cache)
    ensures var after, i := CacheAfterServe(blocks, cache, pins, maxBytes, cid), CacheModel.IndexOf(cache, cid);
            && after != [] && after[0] == cache[i].(fetches := cache[i].fetches + 1)
            && Available(blocks, cache)(cid) == Some(cache[i].data)
    ensures forall e | e in cache && e.key == cid :: e == cache[CacheModel.IndexOf(cache, cid)]
  {
    var i := CacheModel.IndexOf(cache, cid);
    var t := CacheModel.Get(cache, cid);
    assert t[0] == cache[i].(fetches := cache[i].fetches + 1);
    assert t[0] in t && cid in CacheModel.Keys(t) && CacheModel.IndexOf(t, cid) == 0;
    forall e | e in cache && e.key == cid ensures e == cache[i] {
      CacheModel.OnlyAt(cache, cid, e);
    }
  }

  /** An accepted push is then on disk and in front of the cache; one that is not changes nothing. */
  lemma PushedIsStored(blocks: map<Cid, Bytes>, cache: CacheModel.Model, pins: set<Cid>, maxBytes: int,
                       outcome: PushOutcome)
    requires PushReturns(cache, pins, maxBytes, outcome)
    ensures var stored, after := BlocksAfterPush(blocks, outcome), CacheAfterPush(cache, pins, maxBytes, outcome);
            if outcome.Accepted? then
              && outcome.block.cid in stored && stored[outcome.block.cid] == outcome.block.data
              && (forall c | c in blocks && c != outcome.block.cid :: c in stored && stored[c] == blocks[c])
              && after != [] && after[0].key == outcome.block.cid && after[0].data == outcome.block.data
            else stored == blocks && after == cache
  {
  }
}

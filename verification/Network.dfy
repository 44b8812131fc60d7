/**
 * Any number of nodes publishing, serving, fetching, pushing, caching and deleting. A step is one section under one
 * lock of the cache or of the store, and all steps interleave at will. The network may hand a fetcher or a push
 * handler arbitrary bytes.
 */
module Network {
  import opened Bytes
  import opened Hashing
  import opened Chunker
  import opened Seqs
  import opened Wire
  import opened Handlers
  import CacheModel

  /** Chunks fetched at once (internal/node/api.go, `fetchConcurrency`). */
  const BATCH := 4

  datatype Node = Node(blocks: map<Cid, Bytes>, manifests: map<Cid, Manifest>, pins: set<Cid>,
                       cache: CacheModel.Model, maxBytes: int)

  /** A running `handleFetch`: what has arrived so far, and which chunks could not be had. */
  datatype Fetch = Fetch(node: nat, manifest: Manifest, got: seq<Option<Bytes>>, missing: set<nat>)

  /** Where a stream handler is: what it does next, or how it ended. */
  datatype Stage =
    | AskCache
    | AskDisk
    | CacheFound(data: Bytes)
    | Served(data: Bytes)
    | Absent
    | StorePushed(data: Bytes)
    | CachePushed(data: Bytes)
    | Acked

  /** A running stream handler, for a request or a verified push. */
  datatype Handler = Handler(node: nat, cid: Cid, stage: Stage)

  datatype World = World(nodes: seq<Node>, fetches: seq<Fetch>, handlers: seq<Handler>)

  datatype Publication = Publication(name: Bytes, file: Bytes, size: nat, blocks: seq<Block>)

  datatype Event =
    | PublishBlock(n: nat, p: Publication, chunk: nat)
    | PublishManifest(n: nat, p: Publication)
    | Request(n: nat, input: Bytes)
    | Push(n: nat, input: Bytes)
    | Advance(h: nat)
    | DropCached(n: nat, cid: Cid)
    | Delete(n: nat, cid: Cid)
    | SetPins(n: nat, pins: set<Cid>)
    | StartFetch(n: nat, root: Cid)
    | TakeCached(f: nat, chunk: nat)
    | TakeStored(f: nat, chunk: nat)
    | TakeReply(f: nat, chunk: nat, reply: Bytes)
    | GiveUp(f: nat, chunk: nat)

  // ----- Steps -----

  ghost predicate Valid(sha: Sha, p: Publication) {
    p.size > 0 && IsChunking(sha, p.file, p.size, p.blocks)
  }

  function ManifestFor(sha: Sha, p: Publication): Manifest {
    ManifestOf(sha, p.name, |p.file|, p.blocks)
  }

  /** What one node does by itself. */
  ghost predicate NodeStep(sha: Sha, node: Node, ev: Event, node': Node) {
    match ev
    case PublishBlock(_, p, i) =>
      Valid(sha, p) && i < |p.blocks| && node' == node.(blocks := node.blocks[p.blocks[i].cid := p.blocks[i].data])
    case PublishManifest(_, p) =>
      Valid(sha, p) && node' == node.(manifests := node.manifests[ManifestFor(sha, p).rootCID := ManifestFor(sha, p)])
    case DropCached(_, cid) => node' == node.(cache := CacheModel.Evict(node.cache, cid))
    case Delete(_, cid) => node' == node.(blocks := node.blocks - {cid})
    case SetPins(_, pins) => node' == node.(pins := pins)
    case _ => false
  }

  /** The next section of a handler, on the state its node has by then. */
  ghost predicate HandlerStep(h: Handler, node: Node, h': Handler, node': Node) {
    match h.stage
    case AskCache =>
      && node' == node.(cache := CacheModel.Get(node.cache, h.cid))
      && h' == h.(stage := match CacheModel.Lookup(node.cache, h.cid)
                           case Some(d) => CacheFound(d)
                           case None => AskDisk)
    case AskDisk =>
      && node' == node
      && h' == h.(stage := if h.cid in node.blocks then CacheFound(node.blocks[h.cid]) else Absent)
    case CacheFound(d) => Caches(h, d, node, node') && h' == h.(stage := Served(d))
    case StorePushed(d) => node' == node.(blocks := node.blocks[h.cid := d]) && h' == h.(stage := CachePushed(d))
    case CachePushed(d) => Caches(h, d, node, node') && h' == h.(stage := Acked)
    case _ => false
  }

  ghost predicate Caches(h: Handler, d: Bytes, node: Node, node': Node) {
    && CacheModel.PutReturns(node.cache, h.cid, d, node.pins, node.maxBytes)
    && node' == node.(cache := CacheModel.Put(node.cache, h.cid, d, node.pins, node.maxBytes))
  }

  /** What a handler that ended has written back. */
  function Reply(h: Handler): Option<Bytes> {
    match h.stage
    case Served(d) => Some(EncodeReply(h.cid, Some(d)))
    case Absent => Some(EncodeReply(h.cid, None))
    case Acked => Some([1])
    case _ => None
  }

  /** The handlers after a stream arrived: a malformed request and a push that is not accepted start none. */
  function Started(handlers: seq<Handler>, n: nat, ev: Event, sha: Sha): seq<Handler>
    requires ev.Request? || ev.Push?
  {
    if ev.Request? then
      match DecodeCid(ev.input)
      case None => handlers
      case Some((cid, _)) => handlers + [Handler(n, cid, AskCache)]
    else
      match DecodePush(sha, ev.input)
      case Accepted(b) => handlers + [Handler(n, b.cid, StorePushed(b.data))]
      case _ => handlers
  }

  /** Chunk `i` may be asked for: its batch has begun, and it is still open. */
  ghost predicate Open(f: Fetch, i: nat) {
    && i < |f.got| && f.got[i].None? && i !in f.missing
    && |f.got| == |f.manifest.chunkCIDs|
    && forall j | 0 <= j < i / BATCH * BATCH :: f.got[j].Some?
  }

  /** What a fetch does to itself and to its node, for one chunk. */
  ghost predicate FetchStep(sha: Sha, f: Fetch, node: Node, ev: Event, f': Fetch, node': Node) {
    match ev
    case TakeCached(_, i) =>
      && Open(f, i) && CacheModel.Lookup(node.cache, f.manifest.chunkCIDs[i]).Some?
      && f' == f.(got := f.got[i := CacheModel.Lookup(node.cache, f.manifest.chunkCIDs[i])])
      && node' == node.(cache := CacheModel.Get(node.cache, f.manifest.chunkCIDs[i]))
    case TakeStored(_, i) =>
      && Open(f, i) && f.manifest.chunkCIDs[i] in node.blocks
      && f' == f.(got := f.got[i := Some(node.blocks[f.manifest.chunkCIDs[i]])]) && node' == node
    case TakeReply(_, i, reply) =>
      && Open(f, i) && DecodeReply(sha, f.manifest.chunkCIDs[i], reply).Ok?
      && var b := DecodeReply(sha, f.manifest.chunkCIDs[i], reply).value;
         f' == f.(got := f.got[i := Some(b.data)]) && node' == node.(blocks := node.blocks[b.cid := b.data])
    case GiveUp(_, i) => Open(f, i) && f' == f.(missing := f.missing + {i}) && node' == node
    case _ => false
  }

  ghost predicate Step(sha: Sha, w: World, ev: Event, w': World) {
    match ev
    case StartFetch(n, root) =>
      && n < |w.nodes| && root in w.nodes[n].manifests
      && var m := w.nodes[n].manifests[root];
         w' == w.(fetches := w.fetches + [Fetch(n, m, seq(|m.chunkCIDs|, _ => None), {})])
    case Request(n, _) => n < |w.nodes| && w' == w.(handlers := Started(w.handlers, n, ev, sha))
    case Push(n, _) => n < |w.nodes| && w' == w.(handlers := Started(w.handlers, n, ev, sha))
    case Advance(h) => HandlerMoves(w, h, w')
    case TakeCached(f, _) => FetchMoves(sha, w, f, ev, w')
    case TakeStored(f, _) => FetchMoves(sha, w, f, ev, w')
    case TakeReply(f, _, _) => FetchMoves(sha, w, f, ev, w')
    case GiveUp(f, _) => FetchMoves(sha, w, f, ev, w')
    case _ => NodeMoves(sha, w, ev.n, ev, w')
  }

  ghost predicate NodeMoves(sha: Sha, w: World, n: nat, ev: Event, w': World) {
    && n < |w.nodes| == |w'.nodes|
    && NodeStep(sha, w.nodes[n], ev, w'.nodes[n])
    && w' == w.(nodes := w.nodes[n := w'.nodes[n]])
  }

  ghost predicate FetchMoves(sha: Sha, w: World, f: nat, ev: Event, w': World) {
    && f < |w.fetches| == |w'.fetches| && w.fetches[f].node < |w.nodes| == |w'.nodes|
    && var n := w.fetches[f].node;
       && FetchStep(sha, w.fetches[f], w.nodes[n], ev, w'.fetches[f], w'.nodes[n])
       && w' == World(w.nodes[n := w'.nodes[n]], w.fetches[f := w'.fetches[f]], w.handlers)
  }

  ghost predicate HandlerMoves(w: World, h: nat, w': World) {
    && h < |w.handlers| == |w'.handlers| && w.handlers[h].node < |w.nodes| == |w'.nodes|
    && var n := w.handlers[h].node;
       && HandlerStep(w.handlers[h], w.nodes[n], w'.handlers[h], w'.nodes[n])
       && w' == World(w.nodes[n := w'.nodes[n]], w.fetches, w.handlers[h := w'.handlers[h]])
  }

  ghost predicate Initial(w: World) {
    && w.fetches == [] && w.handlers == []
    && forall n | n in w.nodes :: n.blocks == map[] && n.manifests == map[] && n.cache == []
  }

  /** `ws` are the worlds a run passes through, driven by `evs`. */
  ghost predicate IsRun(sha: Sha, ws: seq<World>, evs: seq<Event>) {
    && |ws| == |evs| + 1 && Initial(ws[0])
    && forall i | 0 <= i < |evs| :: Step(sha, ws[i], evs[i], ws[i + 1])
  }

  // ----- The global invariant -----

  ghost predicate HonestCache(sha: Sha, s: CacheModel.Model) {
    forall i | 0 <= i < |s| :: ComputeCID(sha, s[i].data) == s[i].key
  }

  ghost predicate PublishedAs(sha: Sha, m: Manifest, p: Publication) {
    Valid(sha, p) && m == ManifestFor(sha, p)
  }

  ghost predicate HonestNode(sha: Sha, node: Node) {
    && (forall c | c in node.blocks :: ComputeCID(sha, node.blocks[c]) == c)
    && HonestCache(sha, node.cache)
    && (forall r | r in node.manifests ::
          node.manifests[r].rootCID == r && exists p :: PublishedAs(sha, node.manifests[r], p))
  }

  ghost predicate HonestFetch(sha: Sha, f: Fetch) {
    && (exists p :: PublishedAs(sha, f.manifest, p))
    && |f.got| == |f.manifest.chunkCIDs|
    && (forall i | 0 <= i < |f.got| && f.got[i].Some? :: ComputeCID(sha, f.got[i].value) == f.manifest.chunkCIDs[i])
    && (forall i, j | 0 <= j < i / BATCH * BATCH && i < |f.got| && f.got[i].Some? :: f.got[j].Some?)
  }

  /** The data a handler carries matches its CID. */
  ghost predicate HonestHandler(sha: Sha, h: Handler) {
    match h.stage
    case CacheFound(d) => ComputeCID(sha, d) == h.cid
    case Served(d) => ComputeCID(sha, d) == h.cid
    case StorePushed(d) => ComputeCID(sha, d) == h.cid
    case CachePushed(d) => ComputeCID(sha, d) == h.cid
    case _ => true
  }

  ghost predicate Honest(sha: Sha, w: World) {
    && (forall i | 0 <= i < |w.handlers| :: HonestHandler(sha, w.handlers[i]))
    && (forall i | 0 <= i < |w.nodes| :: HonestNode(sha, w.nodes[i]))
    && (forall i | 0 <= i < |w.fetches| :: HonestFetch(sha, w.fetches[i]))
  }

  lemma {:induction false} HonestMakeRoom(sha: Sha, s: CacheModel.Model, pins: set<Cid>, need: nat, maxBytes: int)
    requires HonestCache(sha, s) && CacheModel.Drains(s, pins, need, maxBytes)
    ensures HonestCache(sha, CacheModel.MakeRoom(s, pins, need, maxBytes))
    decreases |s|
  {
    if !CacheModel.Fits(s, need, maxBytes) {
      CacheModel.MakeRoomStep(s, pins, need, maxBytes);
      CacheModel.DrainsStep(s, pins, need, maxBytes);
      var d, t := CacheModel.Demoted(s, pins), CacheModel.EvictOldest(s, pins);
      WithoutFrom(d, CacheModel.Victim(s, pins));
      assert HonestCache(sha, d);
      HonestMakeRoom(sha, t, pins, need, maxBytes);
    }
  }

  lemma HonestPut(sha: Sha, s: CacheModel.Model, key: Cid, data: Bytes, pins: set<Cid>, maxBytes: int)
    requires HonestCache(sha, s) && ComputeCID(sha, data) == key && CacheModel.PutReturns(s, key, data, pins, maxBytes)
    ensures HonestCache(sha, CacheModel.Put(s, key, data, pins, maxBytes))
  {
    if key in CacheModel.Keys(s) {
      var i := CacheModel.IndexOf(s, key);
      WithoutFrom(s[i := s[i].(data := data)], i);
    } else {
      HonestMakeRoom(sha, s, pins, |data|, maxBytes);
    }
  }

  lemma HonestGet(sha: Sha, s: CacheModel.Model, key: Cid)
    requires HonestCache(sha, s)
    ensures HonestCache(sha, CacheModel.Get(s, key)) && HonestCache(sha, CacheModel.Evict(s, key))
    ensures CacheModel.Lookup(s, key).Some? ==> ComputeCID(sha, CacheModel.Lookup(s, key).value) == key
  {
    if key in CacheModel.Keys(s) {
      var i := CacheModel.IndexOf(s, key);
      WithoutFrom(s, i);
      WithoutFrom(s[i := s[i].(fetches := s[i].fetches + 1)], i);
    }
  }

  lemma NodeStepHonest(sha: Sha, node: Node, ev: Event, node': Node)
    requires HonestNode(sha, node) && NodeStep(sha, node, ev, node')
    ensures HonestNode(sha, node')
  {
    hide CacheModel.Evict, ComputeCID, HonestNode, ManifestOf, IsChunking;
    match ev
    case PublishBlock(_, p, i) =>
      ChunkNamed(sha, p, i);
      StoredHonest(sha, node, p.blocks[i].cid, p.blocks[i].data);
    case PublishManifest(_, p) =>
      ManifestHonest(sha, node, p);
    case DropCached(_, cid) =>
      CacheReadHonest(sha, node, cid);
    case Delete(_, cid) =>
      DeletedHonest(sha, node, cid);
    case SetPins(_, pins) =>
      PinnedHonest(sha, node, pins);
    case _ =>
  }

  lemma ChunkNamed(sha: Sha, p: Publication, i: nat)
    requires Valid(sha, p) && i < |p.blocks|
    ensures ComputeCID(sha, p.blocks[i].data) == p.blocks[i].cid
  {
    assert p.blocks[i] in p.blocks;
  }

  lemma ManifestHonest(sha: Sha, node: Node, p: Publication)
    requires HonestNode(sha, node) && Valid(sha, p)
    ensures HonestNode(sha, node.(manifests := node.manifests[ManifestFor(sha, p).rootCID := ManifestFor(sha, p)]))
  {
    hide ComputeCID, HonestCache, ManifestFor, Valid;
    assert PublishedAs(sha, ManifestFor(sha, p), p);
  }

  lemma DeletedHonest(sha: Sha, node: Node, cid: Cid)
    requires HonestNode(sha, node)
    ensures HonestNode(sha, node.(blocks := node.blocks - {cid}))
  {
    hide ComputeCID, HonestCache, PublishedAs;
  }

  lemma PinnedHonest(sha: Sha, node: Node, pins: set<Cid>)
    requires HonestNode(sha, node)
    ensures HonestNode(sha, node.(pins := pins))
  {
    hide ComputeCID, HonestCache, PublishedAs;
  }

  lemma HandlerStepHonest(sha: Sha, h: Handler, node: Node, h': Handler, node': Node)
    requires HonestNode(sha, node) && HonestHandler(sha, h) && HandlerStep(h, node, h', node')
    ensures HonestNode(sha, node') && HonestHandler(sha, h')
  {
    hide CacheModel.Put, CacheModel.Get, CacheModel.Evict, CacheModel.PutReturns, CacheModel.Lookup, ComputeCID;
    match h.stage
    case AskCache => HonestGet(sha, node.cache, h.cid);
    case CacheFound(d) => HonestPut(sha, node.cache, h.cid, d, node.pins, node.maxBytes);
    case CachePushed(d) => HonestPut(sha, node.cache, h.cid, d, node.pins, node.maxBytes);
    case _ =>
  }

  lemma StartedHonest(sha: Sha, handlers: seq<Handler>, n: nat, ev: Event)
    requires (ev.Request? || ev.Push?) && forall i | 0 <= i < |handlers| :: HonestHandler(sha, handlers[i])
    ensures forall i | 0 <= i < |Started(handlers, n, ev, sha)| :: HonestHandler(sha, Started(handlers, n, ev, sha)[i])
  {
    hide DecodePush, DecodeCid;
    if ev.Push? && DecodePush(sha, ev.input).Accepted? {
      AcceptedBlockMatches(sha, ev.input);
    }
  }

  /** A chunk that matches the manifest keeps a fetch honest. */
  lemma GotHonest(sha: Sha, f: Fetch, i: nat, data: Bytes)
    requires HonestFetch(sha, f) && Open(f, i) && ComputeCID(sha, data) == f.manifest.chunkCIDs[i]
    ensures HonestFetch(sha, f.(got := f.got[i := Some(data)]))
  {
    hide ComputeCID, PublishedAs;
  }

  lemma StoredHonest(sha: Sha, node: Node, cid: Cid, data: Bytes)
    requires HonestNode(sha, node) && ComputeCID(sha, data) == cid
    ensures HonestNode(sha, node.(blocks := node.blocks[cid := data]))
  {
    hide ComputeCID, PublishedAs, HonestCache;
  }

  lemma CacheReadHonest(sha: Sha, node: Node, cid: Cid)
    requires HonestNode(sha, node)
    ensures HonestNode(sha, node.(cache := CacheModel.Get(node.cache, cid)))
    ensures HonestNode(sha, node.(cache := CacheModel.Evict(node.cache, cid)))
    ensures CacheModel.Lookup(node.cache, cid).Some? ==>
              ComputeCID(sha, CacheModel.Lookup(node.cache, cid).value) == cid
  {
    hide ComputeCID, PublishedAs, HonestCache, CacheModel.Get, CacheModel.Evict, CacheModel.Lookup;
    HonestGet(sha, node.cache, cid);
  }

  lemma FetchStepHonest(sha: Sha, f: Fetch, node: Node, ev: Event, f': Fetch, node': Node)
    requires HonestNode(sha, node) && HonestFetch(sha, f) && FetchStep(sha, f, node, ev, f', node')
    ensures HonestNode(sha, node') && HonestFetch(sha, f')
  {
    hide CacheModel.Get, CacheModel.Lookup, CacheModel.Evict, ComputeCID, DecodeReply, HonestFetch, HonestNode;
    match ev
    case TakeCached(_, i) =>
      CacheReadHonest(sha, node, f.manifest.chunkCIDs[i]);
      GotHonest(sha, f, i, CacheModel.Lookup(node.cache, f.manifest.chunkCIDs[i]).value);
    case TakeStored(_, i) =>
      BlockHonest(sha, node, f.manifest.chunkCIDs[i]);
      GotHonest(sha, f, i, node.blocks[f.manifest.chunkCIDs[i]]);
    case TakeReply(_, i, reply) =>
      FetchedBlockMatches(sha, f.manifest.chunkCIDs[i], reply);
      var b := DecodeReply(sha, f.manifest.chunkCIDs[i], reply).value;
      StoredHonest(sha, node, b.cid, b.data);
      GotHonest(sha, f, i, b.data);
    case GiveUp(_, i) =>
      MissingHonest(sha, f, i);
    case _ =>
  }

  lemma BlockHonest(sha: Sha, node: Node, cid: Cid)
    requires HonestNode(sha, node) && cid in node.blocks
    ensures ComputeCID(sha, node.blocks[cid]) == cid
  {
  }

  lemma MissingHonest(sha: Sha, f: Fetch, i: nat)
    requires HonestFetch(sha, f)
    ensures HonestFetch(sha, f.(missing := f.missing + {i}))
  {
  }

  lemma StepHonest(sha: Sha, w: World, ev: Event, w': World)
    requires Honest(sha, w) && Step(sha, w, ev, w')
    ensures Honest(sha, w')
  {
    hide NodeStep, FetchStep, HandlerStep, HonestNode, HonestHandler, HonestFetch, Started;
    match ev
    case StartFetch(n, root) => StartIsHonest(sha, w.nodes[n], n, root);
    case Request(n, _) => StartedHonest(sha, w.handlers, n, ev);
    case Push(n, _) => StartedHonest(sha, w.handlers, n, ev);
    case Advance(h) =>
      var n := w.handlers[h].node;
      HandlerStepHonest(sha, w.handlers[h], w.nodes[n], w'.handlers[h], w'.nodes[n]);
    case TakeCached(f, _) => FetchMoveHonest(sha, w, f, ev, w');
    case TakeStored(f, _) => FetchMoveHonest(sha, w, f, ev, w');
    case TakeReply(f, _, _) => FetchMoveHonest(sha, w, f, ev, w');
    case GiveUp(f, _) => FetchMoveHonest(sha, w, f, ev, w');
    case _ => NodeStepHonest(sha, w.nodes[ev.n], ev, w'.nodes[ev.n]);
  }

  lemma FetchMoveHonest(sha: Sha, w: World, f: nat, ev: Event, w': World)
    requires Honest(sha, w) && FetchMoves(sha, w, f, ev, w')
    ensures Honest(sha, w')
  {
    hide FetchStep, HonestNode, HonestFetch, HonestHandler;
    var n := w.fetches[f].node;
    FetchStepHonest(sha, w.fetches[f], w.nodes[n], ev, w'.fetches[f], w'.nodes[n]);
  }

  lemma StartIsHonest(sha: Sha, node: Node, n: nat, root: Cid)
    requires HonestNode(sha, node) && root in node.manifests
    ensures var m := node.manifests[root]; HonestFetch(sha, Fetch(n, m, seq(|m.chunkCIDs|, _ => None), {}))
  {
  }

  /**
   * In every world of every run, every block stored, cached or carried by a handler matches its CID, whatever the
   * network delivered.
   */
  lemma {:induction false} RunHonest(sha: Sha, ws: seq<World>, evs: seq<Event>, i: nat)
    requires IsRun(sha, ws, evs) && i < |ws|
    ensures Honest(sha, ws[i])
  {
    if i > 0 {
      RunHonest(sha, ws, evs, i - 1);
      StepHonest(sha, ws[i - 1], evs[i - 1], ws[i]);
    }
  }

  // ----- End-to-end integrity -----

  ghost predicate Complete(f: Fetch) {
    |f.got| == |f.manifest.chunkCIDs| && forall i | 0 <= i < |f.got| :: f.got[i].Some?
  }

  /** The blocks a complete fetch holds, and the bytes it writes out. */
  ghost function Received(f: Fetch): (blocks: seq<Block>)
    requires Complete(f)
    ensures |blocks| == |f.got|
  {
    seq(|f.got|, i requires 0 <= i < |f.got| => Block(f.manifest.chunkCIDs[i], f.got[i].value))
  }

  ghost function Output(f: Fetch): Bytes
    requires Complete(f)
  {
    Concat(Datas(Received(f)))
  }

  /**
   * A completed fetch of a root writes exactly the bytes of the file published under it, in order, whoever
   * published it and with whatever chunk size, or one of the named strings is a SHA-256 collision.
   */
  lemma FetchWritesPublishedFile(sha: Sha, ws: seq<World>, evs: seq<Event>, i: nat, f: nat, p: Publication)
    requires IsRun(sha, ws, evs) && i < |ws| && f < |ws[i].fetches| && Complete(ws[i].fetches[f])
    requires Valid(sha, p) && ManifestFor(sha, p).rootCID == ws[i].fetches[f].manifest.rootCID
    ensures Output(ws[i].fetches[f]) == p.file || RootBroken(sha, Received(ws[i].fetches[f]), p.blocks)
  {
    hide IsRun, HonestNode, HonestHandler, ComputeCID, Concat;
    RunHonest(sha, ws, evs, i);
    var fetch := ws[i].fetches[f];
    var q :| PublishedAs(sha, fetch.manifest, q);
    assert Cids(Received(fetch)) == fetch.manifest.chunkCIDs == Cids(q.blocks);
    SameRootSameBlocks(sha, Received(fetch), p.blocks);
  }

  /**
   * In every run, a node left undisturbed answers a fetch with the block exactly when it has it, if that block is
   * under 4 GiB; a larger one is a mismatch, or collides with its own prefix.
   */
  lemma ServedExactlyWhenAvailable(sha: Sha, ws: seq<World>, evs: seq<Event>, i: nat, n: nat, cid: Cid)
    requires IsRun(sha, ws, evs) && i < |ws| && n < |ws[i].nodes|
    ensures var lookup := Available(ws[i].nodes[n].blocks, ws[i].nodes[n].cache);
            var result := DecodeReply(sha, cid, AnswerFetch(EncodeCid(cid), lookup));
            match lookup(cid)
            case None => result.Err?
            case Some(data) =>
              if |data| < U32 then result == Ok(Block(cid, data))
              else result.Ok? <==> Collision(sha, data, data[..|data| % U32])
  {
    RunHonest(sha, ws, evs, i);
    var node := ws[i].nodes[n];
    HonestGet(sha, node.cache, cid);
    FetchConversation(sha, cid, Available(node.blocks, node.cache));
  }

  // ----- What handlers answer while other steps go on -----

  /** The reply of a handler, read by the one who asked for its CID. */
  lemma ReplyRead(sha: Sha, ws: seq<World>, evs: seq<Event>, i: nat, k: nat)
    requires IsRun(sha, ws, evs) && i < |ws| && k < |ws[i].handlers|
    ensures var h := ws[i].handlers[k];
            match h.stage
            case Absent => DecodeReply(sha, h.cid, Reply(h).value) == Err(NotFound)
            case Served(data) =>
              var result := DecodeReply(sha, h.cid, Reply(h).value);
              if |data| < U32 then result == Ok(Block(h.cid, data))
              else result.Ok? <==> Collision(sha, data, data[..|data| % U32])
            case _ => true
  {
    RunHonest(sha, ws, evs, i);
    var h := ws[i].handlers[k];
    assert HonestHandler(sha, h);
    if h.stage.Served? {
      DecodeEncodedReply(sha, h.cid, h.stage.data);
      SentMatches(sha, h.stage.data);
    }
  }

  /** What the step before says of a handler that is past its first section. */
  lemma HandlerBefore(sha: Sha, w: World, ev: Event, w': World, k: nat)
    requires Step(sha, w, ev, w') && k < |w'.handlers|
    ensures k < |w.handlers| ==>
              && w.handlers[k].node == w'.handlers[k].node && w.handlers[k].cid == w'.handlers[k].cid
              && (w'.handlers[k] == w.handlers[k]
                  || (ev == Advance(k)
                      && var n := w.handlers[k].node;
                         n < |w.nodes| && HandlerStep(w.handlers[k], w.nodes[n], w'.handlers[k], w'.nodes[n])))
    ensures k >= |w.handlers| ==> w'.handlers[k].stage.AskCache? || w'.handlers[k].stage.StorePushed?
  {
    hide NodeStep, FetchStep, HandlerStep, DecodePush, DecodeCid;
    if ev == Advance(k) {
      var n := w.handlers[k].node;
      SameHandler(w.handlers[k], w.nodes[n], w'.handlers[k], w'.nodes[n]);
    }
  }

  lemma SameHandler(h: Handler, node: Node, h': Handler, node': Node)
    requires HandlerStep(h, node, h', node')
    ensures h'.node == h.node && h'.cid == h.cid
  {
    hide CacheModel.Get, CacheModel.Put, CacheModel.PutReturns, CacheModel.Lookup;
  }

  /** A handler goes on to the disk only after a moment at which the cache did not have the block. */
  lemma {:induction false} MissedInCache(sha: Sha, ws: seq<World>, evs: seq<Event>, i: nat, k: nat) returns (j: nat)
    requires IsRun(sha, ws, evs) && i < |ws| && k < |ws[i].handlers| && ws[i].handlers[k].stage == AskDisk
    ensures j < i
    ensures var h := ws[i].handlers[k];
            h.node < |ws[j].nodes| && CacheModel.Lookup(ws[j].nodes[h.node].cache, h.cid).None?
  {
    hide CacheModel.Get, CacheModel.Put, CacheModel.PutReturns, CacheModel.Lookup, Step;
    assert i > 0;
    HandlerBefore(sha, ws[i - 1], evs[i - 1], ws[i], k);
    if ws[i - 1].handlers[k] == ws[i].handlers[k] {
      j := MissedInCache(sha, ws, evs, i - 1, k);
    } else {
      j := i - 1;
    }
  }

  /**
   * A handler answers "not found" only if the cache lacked the block at one moment of the run and the disk at a
   * later one. A block that stays on disk is found.
   */
  lemma {:induction false} AbsentOnlyWhenMissing(sha: Sha, ws: seq<World>, evs: seq<Event>, i: nat, k: nat)
    returns (j: nat, j': nat)
    requires IsRun(sha, ws, evs) && i < |ws| && k < |ws[i].handlers| && ws[i].handlers[k].stage == Absent
    ensures j < j' < i
    ensures var h := ws[i].handlers[k];
            && h.node < |ws[j].nodes| && CacheModel.Lookup(ws[j].nodes[h.node].cache, h.cid).None?
            && h.node < |ws[j'].nodes| && h.cid !in ws[j'].nodes[h.node].blocks
  {
    hide CacheModel.Get, CacheModel.Put, CacheModel.PutReturns, CacheModel.Lookup, Step;
    assert i > 0;
    HandlerBefore(sha, ws[i - 1], evs[i - 1], ws[i], k);
    if ws[i - 1].handlers[k] == ws[i].handlers[k] {
      j, j' := AbsentOnlyWhenMissing(sha, ws, evs, i - 1, k);
    } else {
      j := MissedInCache(sha, ws, evs, i - 1, k);
      j' := i - 1;
    }
  }

  /** Sections of a request that run back to back do what `BlockTransferHandler.HandleStream` does. */
  lemma ServeUndisturbed(a: Handler, n: Node, b: Handler, n1: Node, c: Handler, n2: Node, d: Handler, n3: Node)
    requires a.stage == AskCache && HandlerStep(a, n, b, n1)
    requires if b.stage == AskDisk then HandlerStep(b, n1, c, n2) else c == b && n2 == n1
    requires if c.stage == Absent then d == c && n3 == n2 else HandlerStep(c, n2, d, n3)
    ensures ServeReturns(n.blocks, n.cache, n.pins, n.maxBytes, a.cid)
    ensures n3 == n.(cache := CacheAfterServe(n.blocks, n.cache, n.pins, n.maxBytes, a.cid))
    ensures Reply(d) == Some(EncodeReply(a.cid, Available(n.blocks, n.cache)(a.cid)))
  {
    hide CacheModel.Get, CacheModel.Put, CacheModel.PutReturns, CacheModel.Lookup, EncodeReply;
  }

  /** Sections of an accepted push that run back to back do what `BlockPushHandler.HandleStream` does. */
  lemma PushUndisturbed(sha: Sha, input: Bytes, a: Handler, n: Node, b: Handler, n1: Node, c: Handler, n2: Node)
    requires DecodePush(sha, input).Accepted?
    requires var block := DecodePush(sha, input).block; a.cid == block.cid && a.stage == StorePushed(block.data)
    requires HandlerStep(a, n, b, n1) && HandlerStep(b, n1, c, n2)
    ensures var outcome := DecodePush(sha, input);
            && PushReturns(n.cache, n.pins, n.maxBytes, outcome)
            && n2 == n.(blocks := BlocksAfterPush(n.blocks, outcome),
                        cache := CacheAfterPush(n.cache, n.pins, n.maxBytes, outcome))
            && Reply(c) == Some(Ack(outcome))
  {
    hide CacheModel.Put, CacheModel.PutReturns, DecodePush;
  }
}

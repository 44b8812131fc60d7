/** The block store of one node (internal/content/store.go), with its directory as maps. */
module Stores {
  import opened Bytes
  import opened Hashing
  import opened Chunker

  class Store {
    var blocks: map<Cid, Bytes>
    var manifests: map<Cid, Manifest>
    var pins: map<Cid, bool>

    constructor ()
      ensures blocks == map[] && manifests == map[] && pins == map[]
    {
      blocks, manifests, pins := map[], map[], map[];
    }

    ghost function Pinned(): set<Cid>
      reads this
    {
      set k | k in pins && pins[k]
    }

    method Put(b: Block)
      modifies `blocks
      ensures blocks == old(blocks)[b.cid := b.data]
    {
      blocks := blocks[b.cid := b.data];
    }

    method Get(cid: Cid) returns (r: Option<Block>)
      ensures r == if cid in blocks then Some(Block(cid, blocks[cid])) else None
    {
      r := if cid in blocks then Some(Block(cid, blocks[cid])) else None;
    }

    /** Fails exactly when there is nothing to remove. */
    method Delete(cid: Cid) returns (ok: bool)
      modifies `blocks
      ensures blocks == old(blocks) - {cid}
      ensures ok <==> cid in old(blocks)
    {
      ok := cid in blocks;
      blocks := blocks - {cid};
    }

    method PutManifest(m: Manifest)
      modifies `manifests
      ensures manifests == old(manifests)[m.rootCID := m]
    {
      manifests := manifests[m.rootCID := m];
    }

    method Pin(cid: Cid)
      modifies `pins
      ensures Pinned() == old(Pinned()) + {cid}
    {
      pins := pins[cid := true];
    }

    method Unpin(cid: Cid)
      modifies `pins
      ensures Pinned() == old(Pinned()) - {cid}
    {
      pins := pins - {cid};
    }

    predicate IsPinned(cid: Cid)
      reads this
      ensures IsPinned(cid) <==> cid in Pinned()
    {
      cid in pins && pins[cid]
    }
  }
}

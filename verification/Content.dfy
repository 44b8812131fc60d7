/** Content identifiers. SHA-256 is a parameter; nothing is assumed of it but its output width. */
module Hashing {
  import opened Bytes

  type Digest = s: Bytes | |s| == 32 witness seq(32, _ => 0)

  type Sha = Bytes -> Digest

  type Cid = Bytes

  /** Two different strings with one digest. Every "or a collision" below names the strings. */
  ghost predicate Collision(sha: Sha, x: Bytes, y: Bytes) {
    x != y && sha(x) == sha(y)
  }

  function HexDigit(d: byte): byte
    requires d < 16
  {
    if d < 10 then 48 + d else 87 + d
  }

  /** `fmt.Sprintf("%x", …)`. */
  function Hex(s: Bytes): (h: Bytes)
    ensures |h| == 2 * |s|
  {
    if s == [] then [] else [HexDigit(s[0] / 16), HexDigit(s[0] % 16)] + Hex(s[1..])
  }

  function ComputeCID(sha: Sha, data: Bytes): (cid: Cid)
    ensures |cid| == 64
  {
    Hex(sha(data))
  }

  /** CIDs are written with the digits 0 to 9 and a to f, the upper half of each byte first. */
  lemma {:induction false} HexCharacters(s: Bytes, i: nat)
    requires i < |s|
    ensures var digits := "0123456789abcdef";
            && Hex(s)[2 * i] as int == digits[s[i] as int / 16] as int
            && Hex(s)[2 * i + 1] as int == digits[s[i] as int % 16] as int
  {
    HexDigitCharacter(s[0] / 16);
    HexDigitCharacter(s[0] % 16);
    if i > 0 {
      HexCharacters(s[1..], i - 1);
      assert Hex(s)[2 * i] == Hex(s[1..])[2 * (i - 1)] && Hex(s)[2 * i + 1] == Hex(s[1..])[2 * (i - 1) + 1];
    }
  }

  lemma HexDigitCharacter(d: byte)
    requires d < 16
    ensures HexDigit(d) as int == "0123456789abcdef"[d as int] as int
  {
  }

  lemma HexDigitsInjective(a: byte, b: byte)
    requires HexDigit(a / 16) == HexDigit(b / 16) && HexDigit(a % 16) == HexDigit(b % 16)
    ensures a == b
  {
  }

  lemma {:induction false} HexInjective(a: Bytes, b: Bytes)
    requires |a| == |b| && Hex(a) == Hex(b)
    ensures a == b
  {
    if a != [] {
      var x, y := Hex(a), Hex(b);
      assert x[0] == y[0] && x[1] == y[1] && x[2..] == Hex(a[1..]) && y[2..] == Hex(b[1..]);
      HexDigitsInjective(a[0], b[0]);
      HexInjective(a[1..], b[1..]);
      assert a == [a[0]] + a[1..] && b == [b[0]] + b[1..];
    }
  }

  /** Equal identifiers mean equal content, or these very contents collide. */
  lemma EqualCIDs(sha: Sha, x: Bytes, y: Bytes)
    requires ComputeCID(sha, x) == ComputeCID(sha, y)
    ensures x == y || Collision(sha, x, y)
  {
    HexInjective(sha(x), sha(y));
  }
}

/** Splitting files into blocks and describing them by a manifest (internal/content/chunker.go). */
module Chunker {
  import opened Bytes
  import opened Seqs
  import opened Hashing

  datatype Block = Block(cid: Cid, data: Bytes)

  datatype Manifest = Manifest(rootCID: Cid, name: Bytes, totalSize: int, chunkCIDs: seq<Cid>)

  datatype ChunkError = BadChunkSize | ReadFailed

  datatype ReadStatus = Full | Eof | UnexpectedEof | Failed

  /** A byte source; a broken one fails where a sound one reports its end. */
  class Reader {
    var unread: Bytes
    const broken: bool

    constructor (data: Bytes, broken: bool)
      ensures unread == data && this.broken == broken
    {
      unread := data;
      this.broken := broken;
    }

    /** `io.ReadFull` into a buffer of `want` bytes. */
    method ReadFull(want: nat) returns (got: Bytes, status: ReadStatus)
      requires want > 0
      modifies this
      ensures old(unread) == got + unread && |got| <= want
      ensures status == Full <==> |got| == want
      ensures status != Full ==> unread == []
      ensures status == Eof <==> got == [] && !broken
      ensures status == UnexpectedEof <==> 0 < |got| < want && !broken
    {
      if want <= |unread| {
        got, unread, status := unread[..want], unread[want..], Full;
      } else {
        status := if broken then Failed else if unread == [] then Eof else UnexpectedEof;
        got, unread := unread, [];
      }
    }
  }

  function Datas(blocks: seq<Block>): (ds: seq<Bytes>)
    ensures |ds| == |blocks|
    ensures forall i | 0 <= i < |ds| :: ds[i] == blocks[i].data
  {
    seq(|blocks|, i requires 0 <= i < |blocks| => blocks[i].data)
  }

  /** The blocks cut `data` into pieces of `size` bytes, only the last possibly shorter, none empty. */
  ghost predicate IsChunking(sha: Sha, data: Bytes, size: nat, blocks: seq<Block>) {
    && Concat(Datas(blocks)) == data
    && (forall b | b in blocks :: b.cid == ComputeCID(sha, b.data))
    && (forall i | 0 <= i < |blocks| :: 0 < |blocks[i].data| <= size)
    && (forall i | 0 <= i < |blocks| - 1 :: |blocks[i].data| == size)
  }

  method Chunk(sha: Sha, r: Reader, chunkSize: int) returns (res: Result<seq<Block>, ChunkError>)
    modifies r
    ensures chunkSize <= 0 ==> res == Err(BadChunkSize) && r.unread == old(r.unread)
    ensures chunkSize > 0 && r.broken ==> res == Err(ReadFailed)
    ensures chunkSize > 0 && !r.broken ==> res.Ok? && IsChunking(sha, old(r.unread), chunkSize, res.value)
  {
    hide Concat, Datas, ComputeCID;
    if chunkSize <= 0 {
      return Err(BadChunkSize);
    }
    NoDatas();
    var blocks: seq<Block> := [];
    while true
      invariant Concat(Datas(blocks)) + r.unread == old(r.unread)
      invariant forall b | b in blocks :: b.cid == ComputeCID(sha, b.data)
      invariant forall i | 0 <= i < |blocks| :: |blocks[i].data| == chunkSize
      decreases |r.unread|
    {
      var got, status := r.ReadFull(chunkSize);
      if |got| > 0 {
        ghost var before := blocks;
        blocks := blocks + [Block(ComputeCID(sha, got), got)];
        DatasAppend(before, blocks[|before|]);
      }
      if status == Eof || status == UnexpectedEof {
        break;
      }
      if status != Full {
        return Err(ReadFailed);
      }
    }
    return Ok(blocks);
  }

  lemma NoDatas()
    ensures Datas([]) == [] && Concat(Datas([])) == []
  {
  }

  lemma DatasAppend(blocks: seq<Block>, b: Block)
    ensures Datas(blocks + [b]) == Datas(blocks) + [b.data]
    ensures Concat(Datas(blocks + [b])) == Concat(Datas(blocks)) + b.data
  {
    assert Datas(blocks + [b]) == Datas(blocks) + [b.data];
    ConcatAppend(Datas(blocks), [b.data]);
    assert Concat([b.data]) == b.data;
  }

  /** A file and a chunk size have one chunking only. */
  lemma {:induction false} ChunkingUnique(sha: Sha, data: Bytes, size: nat, a: seq<Block>, b: seq<Block>)
    requires IsChunking(sha, data, size, a) && IsChunking(sha, data, size, b)
    ensures a == b
    decreases |a|
  {
    hide IsChunking;
    FirstChunk(sha, data, size, a);
    FirstChunk(sha, data, size, b);
    if data != [] {
      ChunkingUnique(sha, data[Min(size, |data|)..], size, a[1..], b[1..]);
      assert a == [a[0]] + a[1..] && b == [b[0]] + b[1..];
    }
  }

  /** The first chunk is as long as the size and the data allow, and the others cut up the rest. */
  lemma FirstChunk(sha: Sha, data: Bytes, size: nat, blocks: seq<Block>)
    requires IsChunking(sha, data, size, blocks)
    ensures blocks == [] <==> data == []
    ensures data != [] ==>
              var n := Min(size, |data|);
              && blocks[0] == Block(ComputeCID(sha, data[..n]), data[..n])
              && IsChunking(sha, data[n..], size, blocks[1..])
  {
    hide ComputeCID;
    if blocks != [] {
      assert Datas(blocks)[1..] == Datas(blocks[1..]);
      var b := blocks[0];
      assert data == b.data + Concat(Datas(blocks[1..]));
      assert b in blocks;
      if |blocks| == 1 {
        assert Datas(blocks[1..]) == [];
      }
      assert data[..|b.data|] == b.data && data[|b.data|..] == Concat(Datas(blocks[1..]));
      TailChunks(sha, size, blocks);
    }
  }

  lemma TailChunks(sha: Sha, size: nat, blocks: seq<Block>)
    requires blocks != [] && IsChunking(sha, Concat(Datas(blocks)), size, blocks)
    ensures IsChunking(sha, Concat(Datas(blocks[1..])), size, blocks[1..])
  {
    hide ComputeCID, Concat;
  }

  /** `BuildManifest`: the root hashes the concatenated block identifiers. */
  method BuildManifest(sha: Sha, name: Bytes, totalSize: int, blocks: seq<Block>) returns (m: Manifest)
    ensures m == ManifestOf(sha, name, totalSize, blocks)
    ensures m.name == name && m.totalSize == totalSize && m.rootCID == Hex(sha(Concat(m.chunkCIDs)))
    ensures |m.chunkCIDs| == |blocks| && forall i | 0 <= i < |blocks| :: m.chunkCIDs[i] == blocks[i].cid
  {
    var cids: seq<Cid> := [];
    for i := 0 to |blocks|
      invariant cids == Cids(blocks)[..i]
    {
      cids := cids + [blocks[i].cid];
    }
    assert cids == Cids(blocks);
    var hashed: Bytes := [];
    for i := 0 to |cids|
      invariant hashed == Concat(cids[..i])
    {
      ConcatAppend(cids[..i], [cids[i]]);
      assert cids[..i + 1] == cids[..i] + [cids[i]] && Concat([cids[i]]) == cids[i];
      hashed := hashed + cids[i];
    }
    assert cids[..|cids|] == cids;
    return Manifest(ComputeCID(sha, hashed), name, totalSize, cids);
  }

  function Cids(blocks: seq<Block>): (cs: seq<Cid>)
    ensures |cs| == |blocks|
    ensures forall i | 0 <= i < |cs| :: cs[i] == blocks[i].cid
  {
    seq(|blocks|, i requires 0 <= i < |blocks| => blocks[i].cid)
  }

  function ManifestOf(sha: Sha, name: Bytes, totalSize: int, blocks: seq<Block>): Manifest {
    Manifest(ComputeCID(sha, Concat(Cids(blocks))), name, totalSize, Cids(blocks))
  }

  /** Where two equally rooted lists of blocks could differ: the hashed identifier lists, or block `i` of each. */
  ghost predicate RootBroken(sha: Sha, a: seq<Block>, b: seq<Block>) {
    || Collision(sha, Concat(Cids(a)), Concat(Cids(b)))
    || (|a| == |b| && exists i | 0 <= i < |a| :: Collision(sha, a[i].data, b[i].data))
  }

  ghost predicate SelfDescribing(sha: Sha, blocks: seq<Block>) {
    forall b | b in blocks :: b.cid == ComputeCID(sha, b.data)
  }

  lemma SameRootSameBlocks(sha: Sha, a: seq<Block>, b: seq<Block>)
    requires SelfDescribing(sha, a) && SelfDescribing(sha, b)
    requires ComputeCID(sha, Concat(Cids(a))) == ComputeCID(sha, Concat(Cids(b)))
    ensures a == b || RootBroken(sha, a, b)
  {
    EqualCIDs(sha, Concat(Cids(a)), Concat(Cids(b)));
    if Concat(Cids(a)) == Concat(Cids(b)) {
      forall c | c in Cids(a) + Cids(b) ensures |c| == 64 {
        assert c in Cids(a) || c in Cids(b);
      }
      ConcatFixedWidthInjective(Cids(a), Cids(b), 64);
      forall i | 0 <= i < |a| && !RootBroken(sha, a, b) ensures a[i] == b[i] {
        assert Cids(a)[i] == Cids(b)[i];
        assert a[i] in a && b[i] in b;
        EqualCIDs(sha, a[i].data, b[i].data);
      }
    }
  }

  /**
   * The root identifies the file: whatever chunk sizes and names two publishers use, equal roots mean
   * equal contents, or one of the named strings is a collision.
   */
  lemma RootIdentifiesContent(sha: Sha, f: Bytes, fSize: nat, fBlocks: seq<Block>, fName: Bytes,
                              g: Bytes, gSize: nat, gBlocks: seq<Block>, gName: Bytes)
    requires IsChunking(sha, f, fSize, fBlocks) && IsChunking(sha, g, gSize, gBlocks)
    requires ManifestOf(sha, fName, |f|, fBlocks).rootCID == ManifestOf(sha, gName, |g|, gBlocks).rootCID
    ensures f == g || RootBroken(sha, fBlocks, gBlocks)
  {
    SameRootSameBlocks(sha, fBlocks, gBlocks);
  }

  /** `AdaptiveChunkSize`; the round-trip time is in milliseconds. */
  function AdaptiveChunkSize(fileSize: nat, pathRTTms: real, minChunk: int, maxChunk: int): int {
    var lo := if minChunk <= 0 then 64 * 1024 else minChunk;
    var hi := if maxChunk <= 0 then 1024 * 1024 else maxChunk;
    if fileSize <= lo then fileSize
    else
      var targetChunks := if pathRTTms > 50.0 then 4 else if pathRTTms < 5.0 then 16 else 8;
      var wanted := fileSize / targetChunks;
      var raised := if wanted < lo then lo else wanted;
      if raised > hi then hi else raised
  }

  /**
   * Chunking with the adaptive size is refused exactly for the empty file, and the maximum is exceeded exactly by
   * a small file under a minimum above the maximum. Bounds that are not positive stand for their defaults.
   */
  lemma AdaptiveSizeUsable(fileSize: nat, pathRTTms: real, minChunk: int, maxChunk: int)
    ensures AdaptiveChunkSize(fileSize, pathRTTms, minChunk, maxChunk) > 0 <==> fileSize > 0
    ensures var lo, hi := if minChunk > 0 then minChunk else 0x1_0000, if maxChunk > 0 then maxChunk else 0x10_0000;
            AdaptiveChunkSize(fileSize, pathRTTms, minChunk, maxChunk) > hi <==> hi < fileSize <= lo
  {
  }

  /** A slower path never makes the chunks smaller. */
  lemma AdaptiveSizeGrowsWithRTT(fileSize: nat, rtt: real, slower: real, minChunk: int, maxChunk: int)
    requires rtt <= slower
    ensures AdaptiveChunkSize(fileSize, rtt, minChunk, maxChunk)
         <= AdaptiveChunkSize(fileSize, slower, minChunk, maxChunk)
  {
  }

  /** Within the bounds, a quarter of the file on paths above 50 ms, a sixteenth below 5 ms, an eighth between. */
  lemma AdaptiveSizeUnclamped(fileSize: nat, rtt: real, minChunk: int, maxChunk: int)
    requires 0 < minChunk < fileSize
    ensures var size := AdaptiveChunkSize(fileSize, rtt, minChunk, maxChunk);
            && (rtt > 50.0 && minChunk <= fileSize / 4 <= maxChunk ==> size == fileSize / 4)
            && (rtt < 5.0 && minChunk <= fileSize / 16 <= maxChunk ==> size == fileSize / 16)
            && (5.0 <= rtt <= 50.0 && minChunk <= fileSize / 8 <= maxChunk ==> size == fileSize / 8)
  {
  }

  /** A file within the minimum is one chunk; otherwise the size keeps within the bounds, the maximum first. */
  lemma AdaptiveSizeClamped(fileSize: nat, rtt: real, minChunk: int, maxChunk: int)
    requires minChunk > 0 && maxChunk > 0
    ensures var size := AdaptiveChunkSize(fileSize, rtt, minChunk, maxChunk);
            if fileSize <= minChunk then size == fileSize
            else size <= maxChunk && (size < minChunk ==> size == maxChunk)
  {
  }
}

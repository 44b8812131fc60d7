/** The fetch and push conversations as byte strings (internal/protocol/blocktransfer.go). */
module Wire {
  import opened Bytes
  import opened Hashing
  import opened Chunker

  const MAX_CID := 1024
  const MAX_PUSH := 16 * 1024 * 1024

  datatype FetchError = StreamClosed | NotFound | Truncated | CidMismatch

  datatype PushOutcome = Ignored | Rejected | Accepted(block: Block)

  function Ascii(s: string): Bytes {
    seq(|s|, i requires 0 <= i < |s| => LowByte(s[i] as int))
  }

  function EncodeCid(cid: Cid): Bytes {
    PutBE16(|cid|) + cid
  }

  /** The CID a handler reads, and what follows it. */
  function DecodeCid(input: Bytes): Option<(Cid, Bytes)> {
    if |input| < 2 then None
    else
      var n := GetBE16(input[..2]);
      if n > MAX_CID || |input| < 2 + n then None
      else Some((input[2..2 + n], input[2 + n..]))
  }

  function EncodeData(data: Bytes): Bytes {
    PutBE32(|data|) + data
  }

  // ----- Fetch -----

  function EncodeReply(cid: Cid, found: Option<Bytes>): Bytes {
    match found
    case Some(data) => [1] + EncodeData(data)
    case None =>
      var message := Ascii("block not found: ") + cid;
      [0] + PutBE16(|message|) + message
  }

  function DecodeReply(sha: Sha, cid: Cid, reply: Bytes): Result<Block, FetchError> {
    if |reply| == 0 then Err(StreamClosed)
    else if reply[0] == 0 then Err(NotFound)
    else if |reply| < 5 then Err(Truncated)
    else
      var n := GetBE32(reply[1..5]);
      if |reply| < 5 + n then Err(Truncated)
      else
        var data := reply[5..5 + n];
        if ComputeCID(sha, data) != cid then Err(CidMismatch) else Ok(Block(cid, data))
  }

  /** Whatever bytes come back, a fetched block matches the CID asked for. */
  lemma FetchedBlockMatches(sha: Sha, cid: Cid, reply: Bytes)
    requires DecodeReply(sha, cid, reply).Ok?
    ensures var b := DecodeReply(sha, cid, reply).value; b.cid == cid && ComputeCID(sha, b.data) == cid && |cid| == 64
  {
  }

  function AnswerFetch(input: Bytes, lookup: Cid -> Option<Bytes>): Bytes {
    match DecodeCid(input)
    case None => []
    case Some((cid, _)) => EncodeReply(cid, lookup(cid))
  }

  /** The receiver reads as much of a CID as its 16-bit length says, and takes the rest for what follows. */
  lemma DecodeEncodedCid(cid: Cid, rest: Bytes)
    ensures var n := |cid| % U16;
            DecodeCid(EncodeCid(cid) + rest) == if n <= MAX_CID then Some((cid[..n], cid[n..] + rest)) else None
    ensures |cid| < U16 ==> cid[..|cid| % U16] == cid && cid[|cid| % U16..] + rest == rest
  {
    BE16RoundTrip(|cid|);
    var input, n := EncodeCid(cid) + rest, |cid| % U16;
    assert input[..2] == PutBE16(|cid|) && input[2..] == cid + rest;
    assert input[2..2 + n] == cid[..n] && input[2 + n..] == cid[n..] + rest;
  }

  lemma DecodeEncodedReply(sha: Sha, cid: Cid, data: Bytes)
    ensures DecodeReply(sha, cid, EncodeReply(cid, Some(data)))
         == var sent := data[..|data| % U32];
            if ComputeCID(sha, sent) == cid then Ok(Block(cid, sent)) else Err(CidMismatch)
  {
    BE32RoundTrip(|data|);
    var reply := EncodeReply(cid, Some(data));
    assert reply[1..5] == PutBE32(|data|);
    assert reply[5..] == data;
    assert reply[5..5 + |data| % U32] == data[..|data| % U32];
  }

  /**
   * A server whose block under a CID matches it, and a fetcher of that CID agree: a missing block is an error, one
   * under 4 GiB arrives as it is. A larger one arrives truncated, which is a mismatch, or its prefix is a collision.
   * No length of CID breaks this, although lengths travel in 16 bits.
   */
  lemma FetchConversation(sha: Sha, cid: Cid, lookup: Cid -> Option<Bytes>)
    requires lookup(cid).Some? ==> ComputeCID(sha, lookup(cid).value) == cid
    ensures var result := DecodeReply(sha, cid, AnswerFetch(EncodeCid(cid), lookup));
            match lookup(cid)
            case None => result.Err? && (|cid| <= MAX_CID ==> result == Err(NotFound))
            case Some(data) =>
              if |data| < U32 then result == Ok(Block(cid, data))
              else
                var sent := data[..|data| % U32];
                result == if Collision(sha, data, sent) then Ok(Block(cid, sent)) else Err(CidMismatch)
  {
    hide PutBE16, GetBE16, PutBE32, GetBE32, EncodeCid, DecodeCid, ComputeCID;
    var reply := AnswerFetch(EncodeCid(cid), lookup);
    match lookup(cid)
    case Some(data) =>
      CidLength(sha, data);
      DecodeEncodedCid(cid, []);
      assert EncodeCid(cid) + [] == EncodeCid(cid);
      DecodeEncodedReply(sha, cid, data);
      SentMatches(sha, data);
    case None =>
      if |cid| <= MAX_CID {
        DecodeEncodedCid(cid, []);
        assert EncodeCid(cid) + [] == EncodeCid(cid);
      } else {
        OverlongCid(sha, cid, reply);
      }
  }

  lemma CidLength(sha: Sha, data: Bytes)
    ensures |ComputeCID(sha, data)| == 64
  {
  }

  lemma OverlongCid(sha: Sha, cid: Cid, reply: Bytes)
    requires |cid| > MAX_CID
    ensures DecodeReply(sha, cid, reply).Err?
  {
  }

  /** What the 32-bit length lets through matches the CID exactly when it is everything, or collides with it. */
  lemma SentMatches(sha: Sha, data: Bytes)
    ensures var sent := data[..|data| % U32];
            && (|data| < U32 ==> sent == data)
            && (|data| >= U32 ==> (ComputeCID(sha, sent) == ComputeCID(sha, data) <==> Collision(sha, data, sent)))
  {
    var sent := data[..|data| % U32];
    if |data| >= U32 {
      assert |sent| < |data|;
      if ComputeCID(sha, sent) == ComputeCID(sha, data) {
        EqualCIDs(sha, data, sent);
      }
    }
  }

  // ----- Push -----

  function EncodePush(b: Block): Bytes {
    EncodeCid(b.cid) + EncodeData(b.data)
  }

  function DecodePush(sha: Sha, input: Bytes): PushOutcome {
    match DecodeCid(input)
    case None => Ignored
    case Some((cid, rest)) => DecodeBody(sha, cid, rest)
  }

  /** What follows the CID of a push. */
  function DecodeBody(sha: Sha, cid: Cid, rest: Bytes): PushOutcome {
    match DecodeData(rest)
    case None => Ignored
    case Some(data) => if ComputeCID(sha, data) != cid then Rejected else Accepted(Block(cid, data))
  }

  /** The length-prefixed data of a push, at most 16 MiB. */
  function DecodeData(rest: Bytes): Option<Bytes> {
    if |rest| < 4 then None
    else
      var n := GetBE32(rest[..4]);
      if n > MAX_PUSH || |rest| < 4 + n then None else Some(rest[4..4 + n])
  }

  function Ack(outcome: PushOutcome): Bytes {
    match outcome
    case Ignored => []
    case Rejected => [0]
    case Accepted(_) => [1]
  }

  /** `PushBlock` succeeds. */
  predicate Acknowledged(reply: Bytes) {
    |reply| > 0 && reply[0] == 1
  }

  lemma DecodeEncodedBody(sha: Sha, cid: Cid, data: Bytes)
    ensures DecodeBody(sha, cid, EncodeData(data))
         == var sent := data[..|data| % U32];
            if |sent| > MAX_PUSH then Ignored
            else if ComputeCID(sha, sent) == cid then Accepted(Block(cid, sent)) else Rejected
  {
    BE32RoundTrip(|data|);
    var rest := EncodeData(data);
    assert rest[..4] == PutBE32(|data|) && rest[4..] == data;
    assert rest[4..4 + |data| % U32] == data[..|data| % U32];
  }

  /**
   * What becomes of any pushed block. A CID within the limit arrives whole; a longer one is ignored, or from 64 KiB
   * on cut short, the rest of it read as the body; even then nothing is accepted but a block under its own hash.
   */
  lemma DecodeEncodedPush(sha: Sha, b: Block)
    ensures |b.cid| <= MAX_CID ==>
              DecodePush(sha, EncodePush(b))
              == var sent := b.data[..|b.data| % U32];
                 if |sent| > MAX_PUSH then Ignored
                 else if ComputeCID(sha, sent) == b.cid then Accepted(Block(b.cid, sent)) else Rejected
    ensures |b.cid| > MAX_CID ==>
              var outcome, n := DecodePush(sha, EncodePush(b)), |b.cid| % U16;
              && (n > MAX_CID ==> outcome == Ignored)
              && (n <= MAX_CID ==> outcome == DecodeBody(sha, b.cid[..n], b.cid[n..] + EncodeData(b.data)))
              && (outcome.Accepted? ==> n == 64 && outcome.block.cid == b.cid[..n])
  {
    hide EncodeData, EncodeCid, DecodeCid, ComputeCID;
    DecodeEncodedCid(b.cid, EncodeData(b.data));
    DecodeEncodedBody(sha, b.cid, b.data);
    var outcome := DecodePush(sha, EncodePush(b));
    if outcome.Accepted? {
      AcceptedBlockMatches(sha, EncodePush(b));
      CidLength(sha, outcome.block.data);
    }
  }

  /**
   * Pushing a block that matches its CID is acknowledged exactly when it is at most 16 MiB, and then that block is
   * what the peer accepted. Only a block of 4 GiB or more whose truncation collides with it could slip past.
   */
  lemma PushConversation(sha: Sha, b: Block)
    requires ComputeCID(sha, b.data) == b.cid
    ensures |b.data| <= MAX_PUSH ==> DecodePush(sha, EncodePush(b)) == Accepted(b)
    ensures Acknowledged(Ack(DecodePush(sha, EncodePush(b)))) ==>
              || |b.data| <= MAX_PUSH
              || (|b.data| >= U32 && Collision(sha, b.data, b.data[..|b.data| % U32]))
  {
    CidLength(sha, b.data);
    DecodeEncodedPush(sha, b);
    SentMatches(sha, b.data);
    hide DecodePush, EncodePush, Collision;
  }

  /**
   * A push of a block under 4 GiB that matches its CID is acknowledged exactly up to 16 MiB, which is 16777216 bytes.
   */
  lemma PushAcknowledgedExactlyWhen(sha: Sha, b: Block)
    requires ComputeCID(sha, b.data) == b.cid && |b.data| < 0x1_0000_0000
    ensures Acknowledged(Ack(DecodePush(sha, EncodePush(b)))) <==> |b.data| <= 16777216
  {
    PushConversation(sha, b);
    hide DecodePush, EncodePush;
  }

  /** Whatever bytes arrive, an accepted block matches its CID and keeps within the limit. */
  lemma AcceptedBlockMatches(sha: Sha, input: Bytes)
    requires DecodePush(sha, input).Accepted?
    ensures var b := DecodePush(sha, input).block; ComputeCID(sha, b.data) == b.cid && |b.data| <= MAX_PUSH
  {
  }

  // ----- The bytes on the wire -----

  /** A CID is read exactly when its two length bytes say at most 1024 and that many bytes follow. */
  lemma CidReadExactlyWhen(input: Bytes)
    ensures DecodeCid(input).Some?
            <==> |input| >= 2
                 && var n := 256 * input[0] as int + input[1] as int; n <= 1024 && |input| >= 2 + n
    ensures DecodeCid(input).Some? ==>
              var n := 256 * input[0] as int + input[1] as int;
              DecodeCid(input) == Some((input[2..2 + n], input[2 + n..]))
  {
    if |input| >= 2 {
      BigEndianDigits(input[..2]);
    }
  }

  /** A request is two bytes of length, the upper first, and the CID. */
  lemma RequestBytes(cid: Cid)
    requires |cid| < 0x1_0000
    ensures var bytes := EncodeCid(cid);
            |bytes| == 2 + |cid| && 256 * bytes[0] as int + bytes[1] as int == |cid| && bytes[2..] == cid
  {
    BE16RoundTrip(|cid|);
    BigEndianDigits(PutBE16(|cid|));
    assert EncodeCid(cid)[..2] == PutBE16(|cid|);
  }

  /** A found block is answered by 1, four bytes of length and the data. */
  lemma FoundBytes(cid: Cid, data: Bytes)
    requires |data| < 0x1_0000_0000
    ensures var bytes := EncodeReply(cid, Some(data));
            && |bytes| == 5 + |data| && bytes[0] == 1 && bytes[5..] == data
            && 0x100_0000 * bytes[1] as int + 0x1_0000 * bytes[2] as int + 0x100 * bytes[3] as int
               + bytes[4] as int == |data|
  {
    hide PutBE32, GetBE32;
    BE32RoundTrip(|data|);
    BigEndianDigits(PutBE32(|data|));
    assert EncodeReply(cid, Some(data))[1..5] == PutBE32(|data|);
  }

  /** A missing block is answered by 0, two bytes of length and a message that ends in the CID. */
  lemma MissingBytes(cid: Cid)
    requires |cid| <= 1024
    ensures var bytes := EncodeReply(cid, None);
            && |bytes| == 20 + |cid| && bytes[0] == 0 && bytes[20..] == cid
            && 256 * bytes[1] as int + bytes[2] as int == 17 + |cid|
  {
    var message := Ascii("block not found: ") + cid;
    BE16RoundTrip(|message|);
    BigEndianDigits(PutBE16(|message|));
    assert EncodeReply(cid, None)[1..3] == PutBE16(|message|);
  }

  /** A push is a CID as in a request, four bytes of length and the data; 1 acknowledges it, 0 rejects it. */
  lemma PushBytes(b: Block, outcome: PushOutcome)
    requires |b.data| < 0x1_0000_0000
    ensures var n := 2 + |b.cid|;
            var bytes := EncodePush(b);
            && bytes[..n] == EncodeCid(b.cid) && bytes[n + 4..] == b.data
            && 0x100_0000 * bytes[n] as int + 0x1_0000 * bytes[n + 1] as int + 0x100 * bytes[n + 2] as int
               + bytes[n + 3] as int == |b.data|
    ensures Ack(outcome) == if outcome.Accepted? then [1] else if outcome.Rejected? then [0] else []
    ensures Acknowledged(Ack(outcome)) <==> outcome.Accepted?
  {
    BE32RoundTrip(|b.data|);
    BigEndianDigits(PutBE32(|b.data|));
    var n := 2 + |b.cid|;
    assert EncodePush(b)[n..n + 4] == PutBE32(|b.data|);
  }

  /** The fetcher takes any first byte but 0 for "found". */
  lemma OtherStatusIsFound(sha: Sha, cid: Cid, reply: Bytes, status: byte)
    requires |reply| > 0 && reply[0] != 0 && status != 0
    ensures DecodeReply(sha, cid, reply[0 := status]) == DecodeReply(sha, cid, reply)
  {
    var other := reply[0 := status];
    assert other[1..] == reply[1..];
    if |reply| >= 5 {
      assert other[1..5] == reply[1..5];
      var n := GetBE32(reply[1..5]);
      if |reply| >= 5 + n {
        assert other[5..5 + n] == reply[5..5 + n];
      }
    }
  }
}

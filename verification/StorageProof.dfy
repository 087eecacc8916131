/**
  Proof of storage (crates/pivss-core/src/proof.rs). SHA-256 is a parameter; a
  soundness statement that needs it collision-free exhibits the collision instead.
 */
module StorageProof {
  import opened Bytes
  import opened Wrappers

  type U64 = n: nat | n < U64_LIMIT

  datatype ByteRange = ByteRange(offset: U64, length: U64)

  /** The nonce travels hex-encoded. */
  datatype Challenge = Challenge(nonce: string, ranges: seq<ByteRange>)

  datatype Proof = Proof(nonce: string, fullProof: Bytes, rangeProofs: seq<Bytes>, fileSha256: Bytes)

  datatype Panic = SliceOutOfOrder

  function Min(a: nat, b: nat): nat {
    if a <= b then a else b
  }

  // ---------------------------------------------------------------- challenge

  /** One random range, from two draws of the generator. */
  function DrawRange(fileLen: U64, lengthDraw: U64, offsetDraw: U64): (r: ByteRange)
    requires fileLen > 0
    ensures 1 <= r.length <= Min(4096, fileLen)
    ensures r.offset + r.length <= fileLen
  {
    var maxLen := Min(4096, fileLen);
    var length := 1 + lengthDraw % maxLen;
    ByteRange(offsetDraw % (fileLen - length + 1), length)
  }

  function DrawRanges(fileLen: U64, n: nat, draws: seq<U64>): (ranges: seq<ByteRange>)
    requires |draws| == 2 * n && fileLen > 0
    ensures |ranges| == n
  {
    seq(n, i requires 0 <= i < n => DrawRange(fileLen, draws[2 * i], draws[2 * i + 1]))
  }

  /** The challenge for a file of this length, from a nonce and the generator's draws. */
  function DrawnChallenge(fileLen: U64, n: nat, nonce: Bytes, draws: seq<U64>): Challenge
    requires |draws| == 2 * n
  {
    Challenge(HexEncode(nonce), if fileLen > 0 then DrawRanges(fileLen, n, draws) else [])
  }

  /** A challenge for a file of this length: the nonce in hexadecimal, and as many ranges inside as asked for, unless it is empty. */
  ghost predicate ChallengeFor(c: Challenge, fileLen: nat, n: nat, nonce: Bytes) {
    && HexDecode(c.nonce) == Some(nonce) && |c.ranges| == (if fileLen > 0 then n else 0)
    && forall r :: r in c.ranges ==> 1 <= r.length <= 4096 && r.offset + r.length <= fileLen
  }

  lemma DrawnInside(fileLen: U64, n: nat, draws: seq<U64>, i: nat)
    requires |draws| == 2 * n && fileLen > 0 && i < n
    ensures var r := DrawRanges(fileLen, n, draws)[i]; 1 <= r.length <= 4096 && r.offset + r.length <= fileLen
  {
    assert DrawRanges(fileLen, n, draws)[i] == DrawRange(fileLen, draws[2 * i], draws[2 * i + 1]);
  }

  /** What is drawn is such a challenge. */
  lemma ChallengeHolds(fileLen: U64, n: nat, nonce: Bytes, draws: seq<U64>)
    requires |draws| == 2 * n
    ensures ChallengeFor(DrawnChallenge(fileLen, n, nonce, draws), fileLen, n, nonce)
  {
    HexReadsBack(nonce);
    if fileLen > 0 {
      var ranges := DrawRanges(fileLen, n, draws);
      forall i | 0 <= i < n ensures 1 <= ranges[i].length <= 4096 && ranges[i].offset + ranges[i].length <= fileLen {
        DrawnInside(fileLen, n, draws, i);
      }
    }
  }

  method MakeChallenge(fileLen: U64, nRanges: nat, nonce: Bytes, draws: seq<U64>) returns (c: Challenge)
    requires |draws| == 2 * nRanges
    ensures c == DrawnChallenge(fileLen, nRanges, nonce, draws)
    ensures c.nonce == HexEncode(nonce) && |c.ranges| == if fileLen > 0 then nRanges else 0
    ensures forall r :: r in c.ranges ==> 1 <= r.length <= 4096 && r.offset + r.length <= fileLen
  {
    var ranges := [];
    if fileLen > 0 {
      for i := 0 to nRanges
        invariant |ranges| == i
        invariant forall j :: 0 <= j < i ==> ranges[j] == DrawRange(fileLen, draws[2 * j], draws[2 * j + 1])
      {
        var maxLen := if fileLen < 4096 then fileLen else 4096;
        var length := 1 + draws[2 * i] % maxLen;
        var offset := draws[2 * i + 1] % (fileLen - length + 1);
        ranges := ranges + [ByteRange(offset, length)];
      }
    }
    c := Challenge(HexEncode(nonce), ranges);
  }

  lemma SmallRemainder(a: nat, m: nat)
    requires a < m
    ensures a % m == a
  {}

  /** No byte is out of reach: every admissible range is drawn by some pair of draws. */
  lemma EveryRangeCanBeDrawn(fileLen: U64, r: ByteRange)
    requires 1 <= r.length <= Min(4096, fileLen) && r.offset + r.length <= fileLen
    ensures DrawRange(fileLen, r.length - 1, r.offset) == r
  {
    SmallRemainder(r.length - 1, Min(4096, fileLen));
    SmallRemainder(r.offset, fileLen - r.length + 1);
  }

  // -------------------------------------------------------------------- proof

  /** An undecodable nonce counts as the empty one. */
  function NonceBytes(c: Challenge): Bytes {
    match HexDecode(c.nonce)
    case Some(b) => b
    case None => []
  }

  function RangeStart(r: ByteRange, len: nat): nat {
    Min(r.offset, len)
  }

  /** The 64-bit sum wraps in a release build. */
  function RangeEnd(r: ByteRange, len: nat): nat {
    Min((r.offset + r.length) % U64_LIMIT, len)
  }

  predicate Sliceable(c: Challenge, len: nat) {
    forall r :: r in c.ranges ==> RangeStart(r, len) <= RangeEnd(r, len)
  }

  function RangeDigest(sha256: Hash, nonce: Bytes, data: Bytes, r: ByteRange): Bytes
    requires RangeStart(r, |data|) <= RangeEnd(r, |data|)
  {
    HexEncode(sha256(nonce + data[RangeStart(r, |data|)..RangeEnd(r, |data|)]))
  }

  function ComputeProof(sha256: Hash, c: Challenge, data: Bytes): Result<Proof, Panic> {
    if !Sliceable(c, |data|) then Err(SliceOutOfOrder)
    else
      var nonce := NonceBytes(c);
      Ok(Proof(c.nonce,
               HexEncode(sha256(nonce + data)),
               seq(|c.ranges|, i requires 0 <= i < |c.ranges| => RangeDigest(sha256, nonce, data, c.ranges[i])),
               HexEncode(sha256(data))))
  }

  function VerifyProof(sha256: Hash, c: Challenge, local: Bytes, proof: Proof): Result<bool, Panic> {
    if proof.nonce != c.nonce then Ok(false)
    else match ComputeProof(sha256, c, local)
      case Ok(expected) => Ok(expected.fullProof == proof.fullProof && expected.rangeProofs == proof.rangeProofs)
      case Err(panic) => Err(panic)
  }

  /**
    When a range cannot be sliced: exactly when its 64-bit sum wraps around to
    a position inside the file. Every range whose end is below 2^64 is safe.
   */
  lemma SliceableExactly(c: Challenge, data: Bytes)
    ensures Sliceable(c, |data|) <==>
            forall r :: r in c.ranges ==> r.offset + r.length < U64_LIMIT || r.offset + r.length - U64_LIMIT >= |data|
  {
    forall r | r in c.ranges
      ensures RangeStart(r, |data|) <= RangeEnd(r, |data|)
              <==> r.offset + r.length < U64_LIMIT || r.offset + r.length - U64_LIMIT >= |data|
    {
      if r.offset + r.length >= U64_LIMIT {
        assert (r.offset + r.length) % U64_LIMIT == r.offset + r.length - U64_LIMIT;
      }
    }
  }

  /** A challenge made for one file can be answered from any other. */
  lemma DrawnChallengeSliceable(fileLen: U64, n: nat, nonce: Bytes, draws: seq<U64>, data: Bytes)
    requires |draws| == 2 * n
    ensures Sliceable(DrawnChallenge(fileLen, n, nonce, draws), |data|)
  {
    SliceableExactly(DrawnChallenge(fileLen, n, nonce, draws), data);
  }

  /** What the nonce field of a challenge stands for: the bytes it spells, or none. */
  predicate NonceIs(c: Challenge, nonce: Bytes) {
    HexDecode(c.nonce) == Some(nonce) || (HexDecode(c.nonce) == None && nonce == [])
  }

  /** The digest of a range: of the nonce and its bytes, cut off at the end of the data. */
  ghost predicate IsRangeDigest(sha256: Hash, nonce: Bytes, data: Bytes, r: ByteRange, digest: Bytes) {
    if r.offset + r.length <= |data| then digest == HexEncode(sha256(nonce + data[r.offset..r.offset + r.length]))
    else if r.offset <= |data| then digest == HexEncode(sha256(nonce + data[r.offset..]))
    else digest == HexEncode(sha256(nonce))
  }

  lemma RangeDigestIs(sha256: Hash, nonce: Bytes, data: Bytes, r: ByteRange)
    requires RangeStart(r, |data|) <= RangeEnd(r, |data|)
    ensures IsRangeDigest(sha256, nonce, data, r, RangeDigest(sha256, nonce, data, r))
  {
    var sum := r.offset + r.length;
    if sum >= U64_LIMIT {
      assert sum % U64_LIMIT == sum - U64_LIMIT;
    }
    if sum > |data| {
      assert RangeEnd(r, |data|) == |data|;
      assert r.offset <= |data| ==> data[r.offset..] == data[r.offset..|data|];
      assert nonce + data[|data|..|data|] == nonce;
    }
  }

  /** An answered challenge holds the digest of the whole data, of every range in order, and of the data alone. */
  ghost predicate HoldsDigests(sha256: Hash, c: Challenge, nonce: Bytes, data: Bytes, proof: Proof) {
    && proof.nonce == c.nonce
    && proof.fullProof == HexEncode(sha256(nonce + data))
    && |proof.rangeProofs| == |c.ranges|
    && forall i :: 0 <= i < |c.ranges| ==> IsRangeDigest(sha256, nonce, data, c.ranges[i], proof.rangeProofs[i])
  }

  lemma ProofHoldsDigests(sha256: Hash, c: Challenge, nonce: Bytes, data: Bytes)
    requires Sliceable(c, |data|) && NonceIs(c, nonce)
    ensures var proof := ComputeProof(sha256, c, data).value;
            HoldsDigests(sha256, c, nonce, data, proof) && proof.fileSha256 == HexEncode(sha256(data))
  {
    forall i | 0 <= i < |c.ranges| ensures IsRangeDigest(sha256, nonce, data, c.ranges[i], RangeDigest(sha256, nonce, data, c.ranges[i])) {
      RangeDigestIs(sha256, nonce, data, c.ranges[i]);
    }
  }

  /** A proof of any origin is accepted if and only if nonce field, full proof and every range proof are those digests. */
  lemma VerifyAcceptsExactly(sha256: Hash, c: Challenge, nonce: Bytes, local: Bytes, proof: Proof)
    requires NonceIs(c, nonce)
    ensures VerifyProof(sha256, c, local, proof) ==
            if proof.nonce == c.nonce && !Sliceable(c, |local|) then Err(SliceOutOfOrder)
            else Ok(HoldsDigests(sha256, c, nonce, local, proof))
  {
    if proof.nonce != c.nonce || !Sliceable(c, |local|) {
      return;
    }
    var expected := ComputeProof(sha256, c, local).value;
    ProofHoldsDigests(sha256, c, nonce, local);
    if HoldsDigests(sha256, c, nonce, local, proof) {
      assert forall i :: 0 <= i < |c.ranges| ==> expected.rangeProofs[i] == proof.rangeProofs[i];
      assert expected.rangeProofs == proof.rangeProofs;
    }
  }

  /** Every honestly computed proof is accepted. */
  lemma HonestProofAccepted(sha256: Hash, c: Challenge, data: Bytes)
    requires Sliceable(c, |data|)
    ensures VerifyProof(sha256, c, data, ComputeProof(sha256, c, data).value) == Ok(true)
  {}

  /**
    The full proof binds both the nonce and the data: an accepted proof that was
    computed over `stored` for nonce `n` (with the nonce field rewritten at will)
    means the same nonce and the same data, or a SHA-256 collision.
   */
  lemma AcceptedMeansSameBytes(sha256: Hash, c: Challenge, local: Bytes, n: Bytes, stored: Bytes, proof: Proof)
    requires |NonceBytes(c)| == |n|
    requires proof.fullProof == HexEncode(sha256(n + stored))
    requires VerifyProof(sha256, c, local, proof) == Ok(true)
    ensures (NonceBytes(c) == n && local == stored) || Collision(sha256, NonceBytes(c) + local, n + stored)
  {
    var mine := NonceBytes(c);
    HexInjective(sha256(mine + local), sha256(n + stored));
    if mine + local == n + stored {
      assert mine == (mine + local)[..|mine|] == (n + stored)[..|n|] == n;
      assert local == (mine + local)[|mine|..] == (n + stored)[|n|..] == stored;
    }
  }

  /** Against an honest server the check succeeds exactly when it holds the client's bytes. */
  lemma VerifiesExactlyTheData(sha256: Hash, c: Challenge, local: Bytes, stored: Bytes)
    requires Sliceable(c, |local|) && Sliceable(c, |stored|)
    requires !Collision(sha256, NonceBytes(c) + local, NonceBytes(c) + stored)
    ensures VerifyProof(sha256, c, local, ComputeProof(sha256, c, stored).value) == Ok(local == stored)
  {
    var proof := ComputeProof(sha256, c, stored).value;
    if VerifyProof(sha256, c, local, proof) == Ok(true) {
      AcceptedMeansSameBytes(sha256, c, local, NonceBytes(c), stored, proof);
    }
  }

  /**
    A proof made for another nonce over the same data and ranges, its nonce
    field rewritten, passes exactly when the two nonces decode alike.
   */
  lemma ReplayPassesExactly(sha256: Hash, c: Challenge, earlier: Challenge, data: Bytes)
    requires Sliceable(c, |data|) && earlier.ranges == c.ranges
    requires |NonceBytes(c)| == |NonceBytes(earlier)|
    requires !Collision(sha256, NonceBytes(c) + data, NonceBytes(earlier) + data)
    ensures VerifyProof(sha256, c, data, ComputeProof(sha256, earlier, data).value.(nonce := c.nonce))
            == Ok(NonceBytes(c) == NonceBytes(earlier))
  {
    var stale := ComputeProof(sha256, earlier, data).value.(nonce := c.nonce);
    if VerifyProof(sha256, c, data, stale) == Ok(true) {
      AcceptedMeansSameBytes(sha256, c, data, NonceBytes(earlier), data, stale);
    }
  }

  /** The nonce of a made challenge is the drawn one. */
  lemma DrawnNonce(fileLen: U64, n: nat, nonce: Bytes, draws: seq<U64>)
    requires |draws| == 2 * n
    ensures NonceBytes(DrawnChallenge(fileLen, n, nonce, draws)) == nonce
  {
    HexReadsBack(nonce);
  }
}

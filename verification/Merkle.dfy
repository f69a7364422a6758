/**
 Pairwise TLT transaction Merkle proofs. The three loops (root, prove, verify) are written over any
 node-pairing function; `HasherOf` is the pairing of the source, for any digest to 32 bytes.
 */
module Merkle {
  import opened Bytes
  import opened Common

  datatype Proof = Proof(index: int, txId: Bytes, siblings: seq<Bytes>)

  datatype Verdict = Accepted | Denied | Threw

  datatype ProveResult = Proved(proof: Proof) | OutOfRange | ProveThrew

  // ---------------------------------------------------------------------------
  // Pairing
  // ---------------------------------------------------------------------------

  /** How two nodes are hashed together, and on which arguments that does not throw. */
  datatype Hasher = Hasher(pair: (Bytes, Bytes) -> Bytes, fits: (Bytes, Bytes) -> bool)

  /** `buf.set(bytes, offset)`. */
  function Set(buf: Bytes, offset: nat, bytes: Bytes): Bytes
    requires offset + |bytes| <= |buf|
  {
    buf[..offset] + bytes + buf[offset + |bytes|..]
  }

  function Clip(b: Bytes, n: nat): Bytes { if |b| <= n then b else b[..n] }

  /** The first `n` bytes, zero-filled. */
  function Fit(b: Bytes, n: nat): Bytes { Set(Zeros(n), 0, Clip(b, n)) }

  /** `left` written at offset 0 of 64 zero bytes, then `right` at offset 32; neither length is checked. */
  function Overlay(left: Bytes, right: Bytes): Bytes { Set(Fit(left, 64), 32, Clip(right, 32)) }

  /** A write past the end of the buffer throws. */
  predicate PairFits(left: Bytes, right: Bytes) { |left| <= 64 && |right| <= 32 }

  /** `hashPair` of the source. */
  function HasherOf(h: Digest): Hasher
  {
    Hasher((left: Bytes, right: Bytes) => h(Overlay(left, right)), (left: Bytes, right: Bytes) => PairFits(left, right))
  }

  ghost predicate Digests(level: seq<Bytes>) { forall i :: 0 <= i < |level| ==> |level[i]| == 32 }

  /** Pairing yields 32 bytes and never throws on 32-byte nodes. */
  ghost predicate Sized(H: Hasher)
  {
    && (forall l, r :: |H.pair(l, r)| == 32)
    && (forall l, r :: |l| == 32 && |r| == 32 ==> H.fits(l, r))
  }

  lemma HasherSized(h: Digest)
    requires Yields32(h)
    ensures Sized(HasherOf(h))
  {
    var H := HasherOf(h);
    forall l, r
      ensures |H.pair(l, r)| == 32
    {
      assert H.pair(l, r) == h(Overlay(l, r));
    }
  }

  // ---------------------------------------------------------------------------
  // The tree
  // ---------------------------------------------------------------------------

  /** An odd level repeats its last node. */
  function Padded(level: seq<Bytes>): seq<Bytes>
  {
    if |level| % 2 == 1 then level + [level[|level| - 1]] else level
  }

  function Parents(H: Hasher, level: seq<Bytes>): seq<Bytes>
  {
    var n := |level|;
    if n < 2 then [] else Parents(H, level[..n - 2]) + [H.pair(level[n - 2], level[n - 1])]
  }

  predicate LevelFits(H: Hasher, level: seq<Bytes>)
  {
    var n := |level|;
    n < 2 || (LevelFits(H, level[..n - 2]) && H.fits(level[n - 2], level[n - 1]))
  }

  lemma {:induction false} ParentsAt(H: Hasher, level: seq<Bytes>, k: nat)
    requires |level| % 2 == 0
    ensures |Parents(H, level)| == |level| / 2
    ensures 2 * k + 1 < |level| ==> Parents(H, level)[k] == H.pair(level[2 * k], level[2 * k + 1])
  {
    if |level| >= 2 {
      ParentsAt(H, level[..|level| - 2], k);
    }
  }

  function Above(H: Hasher, level: seq<Bytes>): seq<Bytes> { Parents(H, Padded(level)) }

  lemma AboveLength(H: Hasher, level: seq<Bytes>)
    ensures |Above(H, level)| == (|level| + 1) / 2
  {
    ParentsAt(H, Padded(level), 0);
  }

  lemma {:induction false} ParentsAreDigests(H: Hasher, level: seq<Bytes>)
    requires Sized(H)
    ensures Digests(Parents(H, level))
  {
    if |level| >= 2 {
      ParentsAreDigests(H, level[..|level| - 2]);
    }
  }

  lemma {:induction false} DigestsFit(H: Hasher, level: seq<Bytes>)
    requires Sized(H) && Digests(level)
    ensures LevelFits(H, level)
  {
    if |level| >= 2 {
      DigestsFit(H, level[..|level| - 2]);
    }
  }

  /** The recursive pairing definition of the root. */
  function Root(H: Hasher, level: seq<Bytes>): Bytes
    decreases |level|
  {
    if |level| == 0 then Zeros(32)
    else if |level| == 1 then level[0]
    else
      AboveLength(H, level);
      Root(H, Above(H, level))
  }

  /** Hashing throws nowhere: only the first level can hold nodes of another length. */
  predicate RootDefined(H: Hasher, leaves: seq<Bytes>) { |leaves| <= 1 || LevelFits(H, Padded(leaves)) }

  function Depth(n: nat): nat
  {
    if n <= 1 then 0 else 1 + Depth((n + 1) / 2)
  }

  function Buddy(idx: nat): nat { if idx % 2 == 0 then idx + 1 else idx - 1 }

  function Siblings(H: Hasher, level: seq<Bytes>, idx: nat): seq<Bytes>
    requires idx < |level|
    decreases |level|
  {
    if |level| == 1 then []
    else
      AboveLength(H, level);
      [Padded(level)[Buddy(idx)]] + Siblings(H, Above(H, level), idx / 2)
  }

  /** One step of verification: the side the running hash takes is the parity of the index. */
  function Step(H: Hasher, hash: Bytes, sibling: Bytes, idx: int): Bytes
  {
    if idx % 2 == 0 then H.pair(hash, sibling) else H.pair(sibling, hash)
  }

  predicate StepFits(H: Hasher, hash: Bytes, sibling: Bytes, idx: int)
  {
    if idx % 2 == 0 then H.fits(hash, sibling) else H.fits(sibling, hash)
  }

  function Climb(H: Hasher, hash: Bytes, idx: int, siblings: seq<Bytes>): Bytes
    decreases |siblings|
  {
    if |siblings| == 0 then hash
    else Climb(H, Step(H, hash, siblings[0], idx), idx / 2, siblings[1..])
  }

  predicate ClimbFits(H: Hasher, hash: Bytes, idx: int, siblings: seq<Bytes>)
    decreases |siblings|
  {
    |siblings| == 0 ||
    (StepFits(H, hash, siblings[0], idx) && ClimbFits(H, Step(H, hash, siblings[0], idx), idx / 2, siblings[1..]))
  }

  predicate Accepts(H: Hasher, root: Bytes, p: Proof)
  {
    ClimbFits(H, p.txId, p.index, p.siblings) && Climb(H, p.txId, p.index, p.siblings) == root
  }

  function Honest(H: Hasher, leaves: seq<Bytes>, idx: nat): Proof
    requires idx < |leaves|
  {
    Proof(idx, leaves[idx], Siblings(H, leaves, idx))
  }

  // ---------------------------------------------------------------------------
  // The three loops
  // ---------------------------------------------------------------------------

  method HashPair(h: Digest, left: Bytes, right: Bytes) returns (r: Option<Bytes>)
    ensures var H := HasherOf(h); r == if H.fits(left, right) then Some(H.pair(left, right)) else None
  {
    var buf := Zeros(64);
    if |left| > 64 { return None; }
    buf := Set(buf, 0, left);
    if |right| > 32 { return None; }
    buf := Set(buf, 32, right);
    assert buf == Overlay(left, right);
    return Some(h(buf));
  }

  lemma LevelPrefix(H: Hasher, level: seq<Bytes>, i: nat)
    requires i + 1 < |level|
    ensures Parents(H, level[..i + 2]) == Parents(H, level[..i]) + [H.pair(level[i], level[i + 1])]
    ensures LevelFits(H, level[..i + 2]) == (LevelFits(H, level[..i]) && H.fits(level[i], level[i + 1]))
  {
    assert level[..i + 2][..i] == level[..i];
  }

  lemma {:induction false} MisfitBlocks(H: Hasher, level: seq<Bytes>, i: nat)
    requires i % 2 == 0 && i <= |level| && |level| % 2 == 0 && !LevelFits(H, level[..i])
    ensures !LevelFits(H, level)
    decreases |level| - i
  {
    if i == |level| {
      assert level[..i] == level;
    } else {
      LevelPrefix(H, level, i);
      MisfitBlocks(H, level, i + 2);
    }
  }

  /** The inner loop that the root and the prover run on an even level. */
  method HashLevel(H: Hasher, level: seq<Bytes>) returns (next: Option<seq<Bytes>>)
    requires |level| % 2 == 0
    ensures next == if LevelFits(H, level) then Some(Parents(H, level)) else None
  {
    var out: seq<Bytes> := [];
    var i := 0;
    while i < |level|
      invariant i % 2 == 0 && 0 <= i <= |level|
      invariant LevelFits(H, level[..i]) && out == Parents(H, level[..i])
    {
      LevelPrefix(H, level, i);
      if !H.fits(level[i], level[i + 1]) {
        MisfitBlocks(H, level, i + 2);
        return None;
      }
      out := out + [H.pair(level[i], level[i + 1])];
      i := i + 2;
    }
    assert level[..|level|] == level;
    return Some(out);
  }

  /** What the level loops keep: nothing has been hashed yet, or everything is a digest. */
  ghost predicate Sound(H: Hasher, txIds: seq<Bytes>, level: seq<Bytes>)
  {
    level == txIds || (RootDefined(H, txIds) && Digests(level))
  }

  lemma SoundStep(H: Hasher, txIds: seq<Bytes>, level: seq<Bytes>)
    requires Sized(H) && |level| > 1 && Sound(H, txIds, level)
    ensures |Padded(level)| % 2 == 0
    ensures LevelFits(H, Padded(level)) == RootDefined(H, txIds)
    ensures RootDefined(H, txIds) ==> Sound(H, txIds, Above(H, level))
    ensures 1 <= |Above(H, level)| < |level|
  {
    AboveLength(H, level);
    ParentsAreDigests(H, Padded(level));
    if level != txIds {
      DigestsFit(H, Padded(level));
    }
  }

  lemma RootStep(H: Hasher, level: seq<Bytes>)
    requires |level| >= 1
    ensures Root(H, level) == if |level| == 1 then level[0] else Root(H, Above(H, level))
  {
  }

  /** The level loop equals the recursive pairing definition; it throws only if the first level does. */
  method TltTxMerkleRoot(H: Hasher, txIds: seq<Bytes>) returns (root: Option<Bytes>)
    requires Sized(H)
    ensures root == if RootDefined(H, txIds) then Some(Root(H, txIds)) else None
  {
    if |txIds| == 0 { return Some(Zeros(32)); }
    hide Parents, LevelFits, Digests, Padded, Root, Sized;
    var level := txIds;
    while |level| > 1
      invariant |level| >= 1 && Root(H, level) == Root(H, txIds) && Sound(H, txIds, level)
      decreases |level|
    {
      SoundStep(H, txIds, level);
      RootStep(H, level);
      var next := HashLevel(H, Padded(level));
      if next.None? { return None; }
      level := next.value;
    }
    RootStep(H, level);
    return Some(level[0]);
  }

  lemma SiblingsStep(H: Hasher, level: seq<Bytes>, idx: nat)
    requires |level| > 1 && idx < |level|
    ensures 0 <= idx / 2 < |Above(H, level)| && 0 <= Buddy(idx) < |Padded(level)|
    ensures Siblings(H, level, idx) == [Padded(level)[Buddy(idx)]] + Siblings(H, Above(H, level), idx / 2)
  {
    AboveLength(H, level);
  }

  lemma SiblingsEnd(H: Hasher, level: seq<Bytes>)
    requires |level| == 1
    ensures Siblings(H, level, 0) == []
  {
  }

  method ProveTltTxMerkle(H: Hasher, txIds: seq<Bytes>, index: int) returns (p: ProveResult)
    requires Sized(H)
    ensures p == if !(0 <= index < |txIds|) then OutOfRange
                 else if RootDefined(H, txIds) then Proved(Honest(H, txIds, index)) else ProveThrew
  {
    if index < 0 || index >= |txIds| { return OutOfRange; }
    hide Parents, LevelFits, Digests, Padded, Siblings, Buddy, Sized;
    var idx: nat := index;
    var level := txIds;
    var siblings: seq<Bytes> := [];
    while |level| > 1
      invariant 0 <= idx < |level| && Sound(H, txIds, level)
      invariant siblings + Siblings(H, level, idx) == Siblings(H, txIds, index)
      decreases |level|
    {
      SoundStep(H, txIds, level);
      SiblingsStep(H, level, idx);
      siblings := siblings + [Padded(level)[Buddy(idx)]];
      var next := HashLevel(H, Padded(level));
      if next.None? { return ProveThrew; }
      level := next.value;
      idx := idx / 2;
    }
    SiblingsEnd(H, level);
    return Proved(Proof(index, txIds[index], siblings));
  }

  method VerifyTltTxMerkle(H: Hasher, root: Bytes, p: Proof) returns (v: Verdict)
    ensures v == if !ClimbFits(H, p.txId, p.index, p.siblings) then Threw
                 else if Accepts(H, root, p) then Accepted else Denied
  {
    var hash := p.txId;
    var idx := p.index;
    for i := 0 to |p.siblings|
      invariant Climb(H, hash, idx, p.siblings[i..]) == Climb(H, p.txId, p.index, p.siblings)
      invariant ClimbFits(H, hash, idx, p.siblings[i..]) == ClimbFits(H, p.txId, p.index, p.siblings)
    {
      var sibling := p.siblings[i];
      assert p.siblings[i..][0] == sibling && p.siblings[i..][1..] == p.siblings[i + 1..];
      if idx % 2 == 0 {
        if !H.fits(hash, sibling) { return Threw; }
        hash := H.pair(hash, sibling);
      } else {
        if !H.fits(sibling, hash) { return Threw; }
        hash := H.pair(sibling, hash);
      }
      idx := idx / 2;
    }
    var same := SameBytes(hash, root);
    return if same then Accepted else Denied;
  }

  method SameBytes(a: Bytes, b: Bytes) returns (same: bool)
    ensures same == (a == b)
  {
    if |a| != |b| { return false; }
    for i := 0 to |a|
      invariant a[..i] == b[..i]
    {
      if a[i] != b[i] { return false; }
    }
    return true;
  }
}

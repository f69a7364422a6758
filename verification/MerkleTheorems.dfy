/** Completeness and binding of the inclusion proofs, for every list length and every digest. */
module MerkleTheorems {
  import opened Common
  import opened Bytes
  import opened Merkle

  // ---------------------------------------------------------------------------
  // The tree from the top
  // ---------------------------------------------------------------------------

  /** Two 32-byte nodes are hashed one after the other, the left one first. */
  lemma PairIsDigest(h: Digest, left: Bytes, right: Bytes)
    requires |left| == 32 && |right| == 32
    ensures HasherOf(h).pair(left, right) == h(left + right) && HasherOf(h).fits(left, right)
  {
    assert Overlay(left, right) == left + right;
  }

  /** How many nodes there are `d` levels above `n` leaves. */
  function Width(n: nat, d: nat): nat { if d == 0 then n else (Width(n, d - 1) + 1) / 2 }

  /** The node at place `i`, `d` levels above the leaves: of its two children the second may be missing. */
  function NodeAt(H: Hasher, leaves: seq<Bytes>, d: nat, i: nat): Bytes
    requires i < Width(|leaves|, d)
  {
    if d == 0 then leaves[i]
    else
      var left := NodeAt(H, leaves, d - 1, 2 * i);
      H.pair(left, if 2 * i + 1 < Width(|leaves|, d - 1) then NodeAt(H, leaves, d - 1, 2 * i + 1) else left)
  }

  lemma {:induction false} WidthAbove(H: Hasher, level: seq<Bytes>, d: nat)
    ensures Width(|Above(H, level)|, d) == Width(|level|, d + 1)
  {
    if d == 0 {
      AboveLength(H, level);
      assert Width(|level|, 0) == |level|;
    } else {
      WidthAbove(H, level, d - 1);
    }
  }

  lemma FirstLevel(H: Hasher, level: seq<Bytes>, i: nat)
    requires i < (|level| + 1) / 2
    ensures i < |Above(H, level)|
    ensures Above(H, level)[i] == H.pair(level[2 * i], level[if 2 * i + 1 < |level| then 2 * i + 1 else 2 * i])
  {
    ParentsAt(H, Padded(level), i);
  }

  lemma {:induction false} NodeAbove(H: Hasher, level: seq<Bytes>, d: nat, i: nat)
    requires i < Width(|level|, d + 1)
    ensures i < Width(|Above(H, level)|, d) && NodeAt(H, Above(H, level), d, i) == NodeAt(H, level, d + 1, i)
  {
    WidthAbove(H, level, d);
    hide Above;
    if d == 0 {
      assert Width(|level|, 0) == |level|;
      FirstLevel(H, level, i);
    } else {
      WidthAbove(H, level, d - 1);
      NodeAbove(H, level, d - 1, 2 * i);
      if 2 * i + 1 < Width(|level|, d) {
        NodeAbove(H, level, d - 1, 2 * i + 1);
      }
    }
  }

  lemma {:induction false} RootFromTop(H: Hasher, level: seq<Bytes>)
    requires |level| > 0
    ensures Width(|level|, Depth(|level|)) == 1 && Root(H, level) == NodeAt(H, level, Depth(|level|), 0)
    decreases |level|
  {
    if |level| > 1 {
      AboveLength(H, level);
      RootFromTop(H, Above(H, level));
      var d := Depth(|Above(H, level)|);
      WidthAbove(H, level, d);
      NodeAbove(H, level, d, 0);
    }
  }

  /** The root is the node at the top; no transactions have 32 zero bytes. */
  lemma RootMeans(H: Hasher, leaves: seq<Bytes>)
    ensures |leaves| > 0 ==> Width(|leaves|, Depth(|leaves|)) == 1
    ensures |leaves| > 0 ==> Root(H, leaves) == NodeAt(H, leaves, Depth(|leaves|), 0)
    ensures |leaves| == 0 ==> |Root(H, leaves)| == 32 && forall i :: 0 <= i < 32 ==> Root(H, leaves)[i] == 0
  {
    if |leaves| > 0 {
      RootFromTop(H, leaves);
    }
  }

  lemma {:induction false} LevelFitsIff(h: Digest, level: seq<Bytes>)
    requires |level| % 2 == 0
    ensures LevelFits(HasherOf(h), level) <==>
            forall i :: 0 <= i < |level| ==> |level[i]| <= if i % 2 == 0 then 64 else 32
  {
    var n := |level|;
    if n >= 2 {
      LevelFitsIff(h, level[..n - 2]);
      assert HasherOf(h).fits(level[n - 2], level[n - 1]) <==> |level[n - 2]| <= 64 && |level[n - 1]| <= 32;
      assert level == level[..n - 2] + [level[n - 2], level[n - 1]];
    }
  }

  /** A list has a root exactly when it is one id or none, or no id is too long for its half of the buffer. */
  lemma RootDefinedIff(h: Digest, leaves: seq<Bytes>)
    ensures RootDefined(HasherOf(h), leaves) <==>
            |leaves| <= 1 ||
            forall i :: 0 <= i < |leaves| ==> |leaves[i]| <= if i % 2 == 0 && i + 1 < |leaves| then 64 else 32
  {
    hide LevelFits;
    LevelFitsIff(h, Padded(leaves));
    if |leaves| > 1 {
      var padded, n := Padded(leaves), |leaves|;
      if forall i :: 0 <= i < n ==> |leaves[i]| <= if i % 2 == 0 && i + 1 < n then 64 else 32 {
        assert forall i :: 0 <= i < |padded| ==> |padded[i]| <= if i % 2 == 0 then 64 else 32;
      } else if LevelFits(HasherOf(h), padded) {
        assert forall i :: 0 <= i < n ==> leaves[i] == padded[i];
        assert n % 2 == 1 ==> padded[n] == leaves[n - 1];
      }
    }
  }

  // ---------------------------------------------------------------------------
  // Completeness
  // ---------------------------------------------------------------------------

  lemma StepUp(H: Hasher, level: seq<Bytes>, idx: nat)
    requires |level| > 1 && idx < |level|
    ensures idx / 2 < |Above(H, level)| && Buddy(idx) < |Padded(level)|
    ensures Step(H, level[idx], Padded(level)[Buddy(idx)], idx) == Above(H, level)[idx / 2]
  {
    ParentsAt(H, Padded(level), idx / 2);
  }

  lemma SiblingsTail(H: Hasher, level: seq<Bytes>, idx: nat)
    requires |level| > 1 && idx < |level|
    ensures idx / 2 < |Above(H, level)| < |level|
    ensures Siblings(H, level, idx)[1..] == Siblings(H, Above(H, level), idx / 2)
  {
    AboveLength(H, level);
  }

  lemma {:induction false} ClimbReachesRoot(H: Hasher, level: seq<Bytes>, idx: nat)
    requires idx < |level|
    ensures Climb(H, level[idx], idx, Siblings(H, level, idx)) == Root(H, level)
    decreases |level|
  {
    if |level| > 1 {
      StepUp(H, level, idx);
      SiblingsTail(H, level, idx);
      ClimbReachesRoot(H, Above(H, level), idx / 2);
    }
  }

  lemma {:induction false} HonestFits(H: Hasher, level: seq<Bytes>, idx: nat)
    requires Sized(H) && idx < |level| && Digests(level)
    ensures ClimbFits(H, level[idx], idx, Siblings(H, level, idx))
    decreases |level|
  {
    if |level| > 1 {
      ParentsAreDigests(H, Padded(level));
      StepUp(H, level, idx);
      SiblingsTail(H, level, idx);
      HonestFits(H, Above(H, level), idx / 2);
    }
  }

  lemma {:induction false} PairFitsAt(H: Hasher, level: seq<Bytes>, k: nat)
    requires |level| % 2 == 0 && LevelFits(H, level) && 2 * k + 1 < |level|
    ensures H.fits(level[2 * k], level[2 * k + 1])
  {
    if 2 * k + 2 < |level| {
      PairFitsAt(H, level[..|level| - 2], k);
    }
  }

  lemma LeafFits(H: Hasher, level: seq<Bytes>, idx: nat)
    requires |level| > 1 && idx < |level| && LevelFits(H, Padded(level))
    ensures Buddy(idx) < |Padded(level)| && StepFits(H, level[idx], Padded(level)[Buddy(idx)], idx)
  {
    PairFitsAt(H, Padded(level), idx / 2);
  }

  /** The proof produced for any leaf verifies against the list's root, for every list that has one. */
  lemma Completeness(H: Hasher, leaves: seq<Bytes>, idx: nat)
    requires Sized(H) && idx < |leaves| && RootDefined(H, leaves)
    ensures Accepts(H, Root(H, leaves), Honest(H, leaves, idx))
  {
    ClimbReachesRoot(H, leaves, idx);
    if |leaves| > 1 {
      hide Parents, Root, Climb, Digests;
      LeafFits(H, leaves, idx);
      SiblingsStep(H, leaves, idx);
      SiblingsTail(H, leaves, idx);
      StepUp(H, leaves, idx);
      ParentsAreDigests(H, Padded(leaves));
      HonestFits(H, Above(H, leaves), idx / 2);
    }
  }

  lemma {:induction false} SiblingCount(H: Hasher, level: seq<Bytes>, idx: nat)
    requires idx < |level|
    ensures |Siblings(H, level, idx)| == Depth(|level|)
    decreases |level|
  {
    if |level| > 1 {
      AboveLength(H, level);
      SiblingCount(H, Above(H, level), idx / 2);
    }
  }

  /** The sibling count is the rounded-up binary logarithm of the list length. */
  lemma {:induction false} DepthIsCeilLog(n: nat)
    requires n >= 1
    ensures n <= Pow2(Depth(n))
    ensures n > 1 ==> Pow2(Depth(n) - 1) < n
  {
    if n > 1 {
      DepthIsCeilLog((n + 1) / 2);
    }
  }

  /** Repeating the last leaf of an odd list of more than one leaf leaves the root unchanged. */
  lemma OddListRootRepeats(H: Hasher, leaves: seq<Bytes>)
    requires |leaves| > 1 && |leaves| % 2 == 1
    ensures Root(H, leaves + [leaves[|leaves| - 1]]) == Root(H, leaves)
  {
  }

  // ---------------------------------------------------------------------------
  // Binding
  // ---------------------------------------------------------------------------

  predicate Collides(h: Digest, c: (Bytes, Bytes)) { c.0 != c.1 && h(c.0) == h(c.1) }

  lemma OverlayHalves(left: Bytes, right: Bytes)
    ensures |Overlay(left, right)| == 64
    ensures Overlay(left, right)[..32] == Fit(left, 64)[..32]
    ensures |right| == 32 ==> Overlay(left, right)[32..] == right
    ensures |left| <= 32 ==> Overlay(left, right)[32..] == Fit(right, 32)
  {
    var l, r := Fit(left, 64), Clip(right, 32);
    assert Overlay(left, right) == l[..32] + r + l[32 + |r|..];
    if |left| <= 32 {
      assert l == left + Zeros(64)[|left|..];
      assert l[32 + |r|..] == Zeros(32)[|r|..];
    }
  }

  function Buffer(hash: Bytes, sibling: Bytes, idx: int): Bytes
  {
    if idx % 2 == 0 then Overlay(hash, sibling) else Overlay(sibling, hash)
  }

  lemma StepIsDigest(h: Digest, hash: Bytes, sibling: Bytes, idx: int)
    ensures Step(HasherOf(h), hash, sibling, idx) == h(Buffer(hash, sibling, idx))
    ensures StepFits(HasherOf(h), hash, sibling, idx) ==
            if idx % 2 == 0 then PairFits(hash, sibling) else PairFits(sibling, hash)
  {
  }

  /** The 32 buffer bytes that a node at this index fills. */
  function Slot(hash: Bytes, idx: int): Bytes
  {
    if idx % 2 == 0 then Fit(hash, 64)[..32] else Fit(hash, 32)
  }

  function TrueBuffer(level: seq<Bytes>, idx: nat): Bytes
    requires idx < |level| && |level| > 1
  {
    Buffer(level[idx], Padded(level)[Buddy(idx)], idx)
  }

  /** Walks the offered proof beside the real tree and stops at the first level whose buffers differ but hash alike. */
  function FindCollision(h: Digest, level: seq<Bytes>, hash: Bytes, idx: nat, siblings: seq<Bytes>): (Bytes, Bytes)
    requires idx < |level| && |siblings| == Depth(|level|)
    decreases |level|
  {
    if |level| == 1 then ([], [])
    else
      var mine, theirs := Buffer(hash, siblings[0], idx), TrueBuffer(level, idx);
      if mine != theirs && h(mine) == h(theirs) then (mine, theirs)
      else
        AboveLength(HasherOf(h), level);
        FindCollision(h, Above(HasherOf(h), level), h(mine), idx / 2, siblings[1..])
  }

  lemma SlotOf(hash: Bytes, sibling: Bytes, idx: int)
    requires |hash| == 32 || |sibling| == 32
    ensures |Buffer(hash, sibling, idx)| == 64
    ensures Slot(hash, idx) ==
            if idx % 2 == 0 then Buffer(hash, sibling, idx)[..32] else Buffer(hash, sibling, idx)[32..]
  {
    if idx % 2 == 0 {
      OverlayHalves(hash, sibling);
    } else {
      OverlayHalves(sibling, hash);
      if |hash| == 32 {
        SlotOfDigest(hash, idx);
      }
    }
  }

  lemma SlotOfDigest(hash: Bytes, idx: int)
    requires |hash| == 32
    ensures Slot(hash, idx) == hash
  {
  }

  lemma SameBufferSameNode(level: seq<Bytes>, hash: Bytes, sibling: Bytes, idx: nat)
    requires idx < |level| && |level| > 1 && Digests(level) && |hash| == 32
    requires Buffer(hash, sibling, idx) == TrueBuffer(level, idx)
    ensures hash == level[idx]
  {
    SlotOf(hash, sibling, idx);
    SlotOf(level[idx], Padded(level)[Buddy(idx)], idx);
    SlotOfDigest(hash, idx);
    SlotOfDigest(level[idx], idx);
  }

  /**
   Binding. If a 32-byte id with the honest sibling count and an in-range index is accepted against
   the root of a list, it is the list element at that index, or the walk returns two different
   inputs with the same digest. Nothing is asked of the siblings.
   */
  lemma {:induction false} Binding(h: Digest, leaves: seq<Bytes>, hash: Bytes, idx: nat, siblings: seq<Bytes>)
    requires Yields32(h) && Digests(leaves) && idx < |leaves| && |hash| == 32 && |siblings| == Depth(|leaves|)
    requires Climb(HasherOf(h), hash, idx, siblings) == Root(HasherOf(h), leaves)
    ensures hash == leaves[idx] || Collides(h, FindCollision(h, leaves, hash, idx, siblings))
    decreases |leaves|
  {
    if |leaves| > 1 {
      var mine, theirs := Buffer(hash, siblings[0], idx), TrueBuffer(leaves, idx);
      StepIsDigest(h, hash, siblings[0], idx);
      if mine == theirs {
        SameBufferSameNode(leaves, hash, siblings[0], idx);
      } else if h(mine) != h(theirs) {
        BindingAbove(h, leaves, idx);
        Binding(h, Above(HasherOf(h), leaves), h(mine), idx / 2, siblings[1..]);
      }
    }
  }

  /** For ids of any length: an accepted id fills the same buffer as the list's own, or the walk returns a collision. */
  lemma BufferBinding(h: Digest, leaves: seq<Bytes>, hash: Bytes, idx: nat, siblings: seq<Bytes>)
    requires Yields32(h) && |leaves| > 1 && idx < |leaves| && |siblings| == Depth(|leaves|)
    requires Climb(HasherOf(h), hash, idx, siblings) == Root(HasherOf(h), leaves)
    ensures Buffer(hash, siblings[0], idx) == TrueBuffer(leaves, idx) ||
            Collides(h, FindCollision(h, leaves, hash, idx, siblings))
  {
    hide Overlay, Parents, Padded;
    var mine, theirs := Buffer(hash, siblings[0], idx), TrueBuffer(leaves, idx);
    StepIsDigest(h, hash, siblings[0], idx);
    if mine != theirs && h(mine) != h(theirs) {
      BindingAbove(h, leaves, idx);
      Binding(h, Above(HasherOf(h), leaves), h(mine), idx / 2, siblings[1..]);
    }
  }

  lemma BindingAbove(h: Digest, leaves: seq<Bytes>, idx: nat)
    requires Yields32(h) && |leaves| > 1 && idx < |leaves|
    ensures Digests(Above(HasherOf(h), leaves)) && |Above(HasherOf(h), leaves)| == (|leaves| + 1) / 2
    ensures h(TrueBuffer(leaves, idx)) == Above(HasherOf(h), leaves)[idx / 2]
  {
    HasherSized(h);
    AboveLength(HasherOf(h), leaves);
    ParentsAreDigests(HasherOf(h), Padded(leaves));
    StepUp(HasherOf(h), leaves, idx);
    StepIsDigest(h, leaves[idx], Padded(leaves)[Buddy(idx)], idx);
  }

  lemma ProofBinding(h: Digest, leaves: seq<Bytes>, p: Proof)
    requires Yields32(h) && Digests(leaves) && 0 <= p.index < |leaves| && |p.txId| == 32
    requires |p.siblings| == Depth(|leaves|) && Accepts(HasherOf(h), Root(HasherOf(h), leaves), p)
    ensures p.txId == leaves[p.index] || Collides(h, FindCollision(h, leaves, p.txId, p.index, p.siblings))
  {
    Binding(h, leaves, p.txId, p.index, p.siblings);
  }

  // Two lists

  /** Two pairs of nodes. */
  datatype Clash = NoClash | Clash(left: Bytes, right: Bytes, left': Bytes, right': Bytes)

  ghost predicate IsClash(H: Hasher, c: Clash)
  {
    && c.Clash? && |c.left| == |c.right| == |c.left'| == |c.right'| == 32
    && (c.left, c.right) != (c.left', c.right') && H.pair(c.left, c.right) == H.pair(c.left', c.right')
  }

  /** The last pair in which two levels differ. */
  function LastDifference(a: seq<Bytes>, b: seq<Bytes>): Clash
    requires |a| == |b|
  {
    var n := |a|;
    if n < 2 then NoClash
    else if a[n - 2] != b[n - 2] || a[n - 1] != b[n - 1] then Clash(a[n - 2], a[n - 1], b[n - 2], b[n - 1])
    else LastDifference(a[..n - 2], b[..n - 2])
  }

  /** Where two lists of equal length first hash alike without being alike, from the root down. */
  function FindClash(H: Hasher, a: seq<Bytes>, b: seq<Bytes>): Clash
    requires |a| == |b|
    decreases |a|
  {
    if |a| <= 1 then NoClash
    else
      AboveLength(H, a);
      AboveLength(H, b);
      if Above(H, a) != Above(H, b) then FindClash(H, Above(H, a), Above(H, b))
      else LastDifference(Padded(a), Padded(b))
  }

  lemma SnocInjective(s: seq<Bytes>, x: Bytes, t: seq<Bytes>, y: Bytes)
    requires s + [x] == t + [y]
    ensures s == t && x == y
  {
    var u, v := s + [x], t + [y];
    assert s == u[..|u| - 1] && t == v[..|v| - 1] && x == u[|u| - 1] && y == v[|v| - 1];
  }

  lemma {:induction false} DifferenceClashes(H: Hasher, a: seq<Bytes>, b: seq<Bytes>)
    requires |a| == |b| && |a| % 2 == 0 && Digests(a) && Digests(b) && Parents(H, a) == Parents(H, b)
    ensures a == b || IsClash(H, LastDifference(a, b))
  {
    var n := |a|;
    if n >= 2 {
      SnocInjective(Parents(H, a[..n - 2]), H.pair(a[n - 2], a[n - 1]),
                    Parents(H, b[..n - 2]), H.pair(b[n - 2], b[n - 1]));
      DifferenceClashes(H, a[..n - 2], b[..n - 2]);
      assert a == a[..n - 2] + [a[n - 2], a[n - 1]] && b == b[..n - 2] + [b[n - 2], b[n - 1]];
    }
  }

  lemma PaddedInjective(a: seq<Bytes>, b: seq<Bytes>)
    requires |a| == |b|
    ensures Padded(a) == Padded(b) ==> a == b
  {
    assert a == Padded(a)[..|a|] && b == Padded(b)[..|b|];
  }

  lemma PaddedEven(a: seq<Bytes>, b: seq<Bytes>)
    requires |a| == |b| && Digests(a) && Digests(b)
    ensures |Padded(a)| == |Padded(b)| && |Padded(a)| % 2 == 0 && Digests(Padded(a)) && Digests(Padded(b))
  {
  }

  lemma {:induction false} RootClash(H: Hasher, a: seq<Bytes>, b: seq<Bytes>)
    requires Sized(H) && |a| == |b| && Digests(a) && Digests(b) && Root(H, a) == Root(H, b)
    ensures a == b || IsClash(H, FindClash(H, a, b))
    decreases |a|
  {
    hide Parents, Padded, LastDifference, IsClash, Sized;
    if |a| == 1 {
      assert a == [a[0]] && b == [b[0]];
    } else if |a| > 1 {
      AboveLength(H, a);
      AboveLength(H, b);
      if Above(H, a) != Above(H, b) {
        ParentsAreDigests(H, Padded(a));
        ParentsAreDigests(H, Padded(b));
        RootClash(H, Above(H, a), Above(H, b));
      } else {
        PaddedEven(a, b);
        DifferenceClashes(H, Padded(a), Padded(b));
        PaddedInjective(a, b);
      }
    }
  }

  lemma OverlayInjective(a: Bytes, b: Bytes, c: Bytes, d: Bytes)
    requires |a| == |b| == |c| == |d| == 32 && Overlay(a, b) == Overlay(c, d)
    ensures a == c && b == d
  {
    OverlayHalves(a, b);
    OverlayHalves(c, d);
    SlotOfDigest(a, 0);
    SlotOfDigest(c, 0);
  }

  /** Two lists of equal length with equal roots are equal, or a digest collision is exhibited. */
  lemma RootBinding(h: Digest, a: seq<Bytes>, b: seq<Bytes>)
    requires Yields32(h) && |a| == |b| && Digests(a) && Digests(b) && Root(HasherOf(h), a) == Root(HasherOf(h), b)
    ensures a == b ||
            var c := FindClash(HasherOf(h), a, b);
            c.Clash? && Collides(h, (Overlay(c.left, c.right), Overlay(c.left', c.right')))
  {
    HasherSized(h);
    RootClash(HasherOf(h), a, b);
    if a != b {
      ClashCollides(h, FindClash(HasherOf(h), a, b));
    }
  }

  lemma ClashCollides(h: Digest, c: Clash)
    requires IsClash(HasherOf(h), c)
    ensures Collides(h, (Overlay(c.left, c.right), Overlay(c.left', c.right')))
  {
    if Overlay(c.left, c.right) == Overlay(c.left', c.right') {
      OverlayInjective(c.left, c.right, c.left', c.right');
    }
  }

  // ---------------------------------------------------------------------------
  // Why each condition of Binding is there
  // ---------------------------------------------------------------------------

  /** The longest id that can be written at this index. */
  function Limit(idx: int): nat { if idx % 2 == 0 then 64 else 32 }

  /** The honest proof with another id in place of the leaf. */
  function WithId(h: Digest, leaves: seq<Bytes>, txId: Bytes, idx: nat): Proof
    requires idx < |leaves|
  {
    Proof(idx, txId, Siblings(HasherOf(h), leaves, idx))
  }

  /** The id can be written beside the leaf's buddy and fills the buffer as the leaf does. */
  predicate FillsBuffer(leaves: seq<Bytes>, txId: Bytes, idx: nat)
    requires |leaves| > 1 && idx < |leaves|
  {
    var buddy := Padded(leaves)[Buddy(idx)];
    && (if idx % 2 == 0 then PairFits(txId, buddy) else PairFits(buddy, txId))
    && Buffer(txId, buddy, idx) == TrueBuffer(leaves, idx)
  }

  lemma ClimbStep(H: Hasher, root: Bytes, hash: Bytes, idx: int, siblings: seq<Bytes>)
    requires |siblings| > 0
    ensures Accepts(H, root, Proof(idx, hash, siblings)) <==>
            StepFits(H, hash, siblings[0], idx) &&
            Accepts(H, root, Proof(idx / 2, Step(H, hash, siblings[0], idx), siblings[1..]))
  {
  }

  /** An id that fills the buffer passes, whatever its length. */
  lemma FillingIdAccepted(h: Digest, leaves: seq<Bytes>, txId: Bytes, idx: nat)
    requires Yields32(h) && |leaves| > 1 && idx < |leaves| && FillsBuffer(leaves, txId, idx)
    ensures Accepts(HasherOf(h), Root(HasherOf(h), leaves), WithId(h, leaves, txId, idx))
  {
    hide Parents, Padded, Buddy, Root, Siblings, Step, StepFits, Accepts, Buffer, Overlay, Digests;
    var H := HasherOf(h);
    HasherSized(h);
    SiblingsStep(H, leaves, idx);
    SiblingsTail(H, leaves, idx);
    StepIsDigest(h, txId, Padded(leaves)[Buddy(idx)], idx);
    BindingAbove(h, leaves, idx);
    RootStep(H, leaves);
    ClimbStep(H, Root(H, leaves), txId, idx, Siblings(H, leaves, idx));
    InnerNodeAccepted(H, leaves, idx);
  }

  lemma DigestsDefined(H: Hasher, leaves: seq<Bytes>)
    requires Sized(H) && Digests(leaves)
    ensures RootDefined(H, leaves)
  {
    DigestsFit(H, Padded(leaves));
  }

  /** Conversely an accepted id fills the buffer, or a digest collision is exhibited. */
  lemma AcceptedIdFills(h: Digest, leaves: seq<Bytes>, txId: Bytes, idx: nat)
    requires Yields32(h) && |leaves| > 1 && idx < |leaves|
    requires Accepts(HasherOf(h), Root(HasherOf(h), leaves), WithId(h, leaves, txId, idx))
    ensures |Siblings(HasherOf(h), leaves, idx)| == Depth(|leaves|)
    ensures FillsBuffer(leaves, txId, idx) ||
            Collides(h, FindCollision(h, leaves, txId, idx, Siblings(HasherOf(h), leaves, idx)))
  {
    hide Parents, Padded, Buddy, Root, Siblings, Buffer, TrueBuffer, Overlay, FindCollision, Depth;
    var H := HasherOf(h);
    SiblingCount(H, leaves, idx);
    SiblingsStep(H, leaves, idx);
    StepIsDigest(h, txId, Padded(leaves)[Buddy(idx)], idx);
    BufferBinding(h, leaves, txId, idx, Siblings(H, leaves, idx));
  }

  /** With 32-byte leaves, filling the buffer is filling the leaf's half of it. */
  lemma FillsIffSlot(leaves: seq<Bytes>, txId: Bytes, idx: nat)
    requires Digests(leaves) && |leaves| > 1 && idx < |leaves|
    ensures FillsBuffer(leaves, txId, idx) <==> |txId| <= Limit(idx) && Slot(txId, idx) == leaves[idx]
  {
    hide Slot, Buffer, TrueBuffer;
    SlotDecidesBuffer(leaves, txId, idx);
  }

  /**
   Exactly which ids pass with the honest siblings of a list of 32-byte ids: those that fill the
   leaf's slot of the buffer always pass, and no other does without a digest collision.
   */
  lemma AcceptedIdsExactly(h: Digest, leaves: seq<Bytes>, txId: Bytes, idx: nat)
    requires Yields32(h) && Digests(leaves) && |leaves| > 1 && idx < |leaves|
    ensures |Siblings(HasherOf(h), leaves, idx)| == Depth(|leaves|)
    ensures |txId| <= Limit(idx) && Slot(txId, idx) == leaves[idx] ==>
              Accepts(HasherOf(h), Root(HasherOf(h), leaves), WithId(h, leaves, txId, idx))
    ensures Accepts(HasherOf(h), Root(HasherOf(h), leaves), WithId(h, leaves, txId, idx)) ==>
              || (|txId| <= Limit(idx) && Slot(txId, idx) == leaves[idx])
              || Collides(h, FindCollision(h, leaves, txId, idx, Siblings(HasherOf(h), leaves, idx)))
  {
    hide Root, Siblings, Accepts, Slot, FindCollision, FillsBuffer, Depth, Limit, Digests;
    SiblingCount(HasherOf(h), leaves, idx);
    FillsIffSlot(leaves, txId, idx);
    if FillsBuffer(leaves, txId, idx) {
      FillingIdAccepted(h, leaves, txId, idx);
    } else if Accepts(HasherOf(h), Root(HasherOf(h), leaves), WithId(h, leaves, txId, idx)) {
      AcceptedIdFills(h, leaves, txId, idx);
    }
  }

  /** On the left side, any bytes after the leaf are overwritten by its sibling. */
  lemma LongIdAccepted(h: Digest, leaves: seq<Bytes>, idx: nat, extra: Bytes)
    requires Yields32(h) && Digests(leaves) && |leaves| > 1 && idx < |leaves| && idx % 2 == 0 && |extra| <= 32
    ensures Accepts(HasherOf(h), Root(HasherOf(h), leaves), WithId(h, leaves, leaves[idx] + extra, idx))
  {
    hide Root, Siblings, Accepts;
    LongSlot(leaves[idx], extra);
    AcceptedIdsExactly(h, leaves, leaves[idx] + extra, idx);
  }

  lemma LongSlot(leaf: Bytes, extra: Bytes)
    requires |leaf| == 32 && |extra| <= 32
    ensures Slot(leaf + extra, 0) == leaf
  {
    assert Fit(leaf + extra, 64)[..32] == leaf;
  }

  /** On either side, trailing zeros of the leaf may be left off. */
  lemma ShortIdAccepted(h: Digest, leaves: seq<Bytes>, idx: nat, n: nat)
    requires Yields32(h) && Digests(leaves) && |leaves| > 1 && idx < |leaves|
    requires n <= 32 && leaves[idx][n..] == Zeros(32 - n)
    ensures Accepts(HasherOf(h), Root(HasherOf(h), leaves), WithId(h, leaves, leaves[idx][..n], idx))
  {
    hide Root, Siblings, Accepts;
    ShortSlot(leaves[idx], n, idx);
    AcceptedIdsExactly(h, leaves, leaves[idx][..n], idx);
  }

  lemma ShortSlot(leaf: Bytes, n: nat, idx: int)
    requires |leaf| == 32 && n <= 32 && leaf[n..] == Zeros(32 - n)
    ensures Slot(leaf[..n], idx) == leaf
  {
    assert leaf == leaf[..n] + Zeros(32 - n);
    assert Fit(leaf[..n], 64)[..32] == leaf && Fit(leaf[..n], 32) == leaf;
  }

  lemma HalvesDecide(x: Bytes, y: Bytes)
    requires |x| == |y| == 64
    ensures x == y <==> x[..32] == y[..32] && x[32..] == y[32..]
  {
  }

  lemma SlotDecidesBuffer(level: seq<Bytes>, txId: Bytes, idx: nat)
    requires Digests(level) && |level| > 1 && idx < |level|
    ensures Buffer(txId, Padded(level)[Buddy(idx)], idx) == TrueBuffer(level, idx) <==> Slot(txId, idx) == level[idx]
  {
    var buddy := Padded(level)[Buddy(idx)];
    SlotOf(txId, buddy, idx);
    SlotOf(level[idx], buddy, idx);
    SlotOfDigest(level[idx], idx);
    if idx % 2 == 0 {
      OverlayHalves(txId, buddy);
      OverlayHalves(level[idx], buddy);
    } else {
      OverlayHalves(buddy, txId);
      OverlayHalves(buddy, level[idx]);
    }
    HalvesDecide(Buffer(txId, buddy, idx), TrueBuffer(level, idx));
  }

  /** With one sibling too few, an inner node passes as a leaf. */
  lemma InnerNodeAccepted(H: Hasher, leaves: seq<Bytes>, idx: nat)
    requires Sized(H) && |leaves| > 1 && idx < |leaves|
    ensures idx / 2 < |Above(H, leaves)|
    ensures Accepts(H, Root(H, leaves), Honest(H, Above(H, leaves), idx / 2))
  {
    hide Parents, Accepts, Root, Honest;
    AboveLength(H, leaves);
    ParentsAreDigests(H, Padded(leaves));
    DigestsDefined(H, Above(H, leaves));
    RootStep(H, leaves);
    Completeness(H, Above(H, leaves), idx / 2);
  }

  /** With the index one past the end, the padding copy of the last leaf passes. */
  lemma PaddingAccepted(H: Hasher, leaves: seq<Bytes>)
    requires Sized(H) && |leaves| > 1 && |leaves| % 2 == 1 && RootDefined(H, leaves)
    ensures Accepts(H, Root(H, leaves), Honest(H, Padded(leaves), |leaves|))
  {
    OddListRootRepeats(H, leaves);
    Completeness(H, Padded(leaves), |leaves|);
  }
}

/** Light finality: proof of work plus independent OVL and DRC two-thirds quorums. */
module TridentLight {
  import opened Bytes
  import opened Common
  import opened Merkle
  import opened MerkleTheorems

  datatype State = Proposed | PoWAccepted | AwaitingOvlQuorum | AwaitingDrcQuorum | Finalized

  datatype Totals = Totals(powWorkMet: bool, ovlSigned: int, ovlActive: int, drcSigned: int, drcActive: int)

  datatype LightResult = Reported(state: State) | InclusionFailed | HeaderMismatch | HashThrew

  predicate HasTwoThirds(signed: int, active: int) { active > 0 && signed * 3 >= active * 2 }

  function TridentLightState(t: Totals): State
  {
    if !t.powWorkMet then Proposed
    else
      var ovl := HasTwoThirds(t.ovlSigned, t.ovlActive);
      var drc := HasTwoThirds(t.drcSigned, t.drcActive);
      if ovl && drc then Finalized
      else if !ovl && drc then AwaitingOvlQuorum
      else if ovl && !drc then AwaitingDrcQuorum
      else PoWAccepted
  }

  /**
   What each state says. Nothing is decided without proof of work; Finalized is two thirds of the active
   stake in both lanes; a waiting state names the one lane whose quorum is missing.
   */
  lemma StateMeans(t: Totals)
    ensures TridentLightState(t).Proposed? <==> !t.powWorkMet
    ensures TridentLightState(t).Finalized? <==>
            && t.powWorkMet && t.ovlActive > 0 && t.drcActive > 0
            && 3 * t.ovlSigned >= 2 * t.ovlActive && 3 * t.drcSigned >= 2 * t.drcActive
    ensures TridentLightState(t).AwaitingOvlQuorum? <==>
            !TridentLightState(t).Finalized? && TridentLightState(t.(ovlSigned := 1, ovlActive := 1)).Finalized?
    ensures TridentLightState(t).AwaitingDrcQuorum? <==>
            !TridentLightState(t).Finalized? && TridentLightState(t.(drcSigned := 1, drcActive := 1)).Finalized?
  {
  }

  method VerifyTridentLight(H: Hasher, root: Bytes, inclusion: Proof, header: Option<Bytes>, t: Totals)
    returns (r: LightResult)
    ensures r.Reported? <==> Accepts(H, root, inclusion) && (header.Some? ==> header.value == root)
    ensures r.Reported? ==> r.state == TridentLightState(t)
    ensures r == Reported(Finalized) ==> t.powWorkMet && 3 * t.ovlSigned >= 2 * t.ovlActive > 0
    ensures r == Reported(Finalized) ==> 3 * t.drcSigned >= 2 * t.drcActive > 0
    ensures r.HashThrew? <==> !ClimbFits(H, inclusion.txId, inclusion.index, inclusion.siblings)
    ensures r.HeaderMismatch? <==> Accepts(H, root, inclusion) && header.Some? && header.value != root
  {
    var v := VerifyTltTxMerkle(H, root, inclusion);
    if v.Threw? { return HashThrew; }
    if v.Denied? { return InclusionFailed; }
    if header.Some? {
      var same := SameBytes(header.value, root);
      if !same { return HeaderMismatch; }
    }
    return Reported(TridentLightState(t));
  }

  // ---------------------------------------------------------------------------
  // Stake sums over the signers of one validator set
  // ---------------------------------------------------------------------------

  datatype Validator = Validator(ovl: nat, drc: nat)

  datatype Lane = Ovl | Drc

  function StakeOf(v: Validator, lane: Lane): nat { if lane.Ovl? then v.ovl else v.drc }

  /** The stake of the signers, who are named by their position in the validator set. */
  function Stake(validators: seq<Validator>, lane: Lane, signers: set<nat>): nat
  {
    var n := |validators|;
    if n == 0 then 0
    else Stake(validators[..n - 1], lane, signers) +
         if n - 1 in signers then StakeOf(validators[n - 1], lane) else 0
  }

  function Active(validators: seq<Validator>, lane: Lane): nat
  {
    var n := |validators|;
    if n == 0 then 0 else Active(validators[..n - 1], lane) + StakeOf(validators[n - 1], lane)
  }

  function TotalsOf(validators: seq<Validator>, signers: set<nat>): Totals
  {
    Totals(true, Stake(validators, Ovl, signers), Active(validators, Ovl),
           Stake(validators, Drc, signers), Active(validators, Drc))
  }

  predicate FinalizedBy(validators: seq<Validator>, signers: set<nat>)
  {
    TridentLightState(TotalsOf(validators, signers)).Finalized?
  }

  lemma {:induction false} StakeModular(validators: seq<Validator>, lane: Lane, a: set<nat>, b: set<nat>)
    ensures Stake(validators, lane, a) + Stake(validators, lane, b) ==
            Stake(validators, lane, a * b) + Stake(validators, lane, a + b)
  {
    if |validators| > 0 {
      StakeModular(validators[..|validators| - 1], lane, a, b);
    }
  }

  lemma {:induction false} StakeMonotone(validators: seq<Validator>, lane: Lane, a: set<nat>, b: set<nat>)
    requires forall i :: i in a && i < |validators| ==> i in b
    ensures Stake(validators, lane, a) <= Stake(validators, lane, b)
  {
    if |validators| > 0 {
      StakeMonotone(validators[..|validators| - 1], lane, a, b);
    }
  }

  ghost predicate HoldsAll(validators: seq<Validator>, s: set<nat>) { forall i :: 0 <= i < |validators| ==> i in s }

  lemma {:induction false} StakeWithinActive(validators: seq<Validator>, lane: Lane, s: set<nat>)
    ensures Stake(validators, lane, s) <= Active(validators, lane)
    ensures HoldsAll(validators, s) ==> Stake(validators, lane, s) == Active(validators, lane)
  {
    if |validators| > 0 {
      StakeWithinActive(validators[..|validators| - 1], lane, s);
    }
  }

  /** Any two finalising signer sets share at least a third of the active stake of the lane. */
  lemma LaneIntersects(validators: seq<Validator>, lane: Lane, a: set<nat>, b: set<nat>)
    requires HasTwoThirds(Stake(validators, lane, a), Active(validators, lane))
    requires HasTwoThirds(Stake(validators, lane, b), Active(validators, lane))
    ensures Stake(validators, lane, a * b) * 3 >= Active(validators, lane) > 0
  {
    StakeModular(validators, lane, a, b);
    StakeWithinActive(validators, lane, a + b);
  }

  lemma FinalizedIntersect(validators: seq<Validator>, a: set<nat>, b: set<nat>)
    requires FinalizedBy(validators, a) && FinalizedBy(validators, b)
    ensures Stake(validators, Ovl, a * b) * 3 >= Active(validators, Ovl) > 0
    ensures Stake(validators, Drc, a * b) * 3 >= Active(validators, Drc) > 0
  {
    LaneIntersects(validators, Ovl, a, b);
    LaneIntersects(validators, Drc, a, b);
  }

  /** The third is exact: three equal validators finalise by two pairs that share one of them. */
  lemma IntersectionIsTight()
    ensures exists validators, a, b ::
              && FinalizedBy(validators, a) && FinalizedBy(validators, b)
              && Stake(validators, Ovl, a * b) * 3 == Active(validators, Ovl)
  {
    var v := Validator(1, 1);
    var validators, a, b := [v, v, v], {0, 1}, {1, 2};
    StakeWithinActive(validators, Ovl, {0, 1, 2});
    StakeWithinActive(validators, Drc, {0, 1, 2});
    forall lane, s: set<nat>
      ensures Stake(validators, lane, s) ==
              (if 0 in s then 1 else 0) + (if 1 in s then 1 else 0) + (if 2 in s then 1 else 0)
    {
      assert validators[..2] == [v, v] && validators[..2][..1] == [v] && validators[..2][..1][..0] == [];
      assert Stake(validators[..2][..1], lane, s) == if 0 in s then 1 else 0;
    }
    assert FinalizedBy(validators, a) && FinalizedBy(validators, b);
  }

  lemma SignersNeverUndo(validators: seq<Validator>, a: set<nat>, b: set<nat>)
    requires a <= b && FinalizedBy(validators, a)
    ensures FinalizedBy(validators, b)
  {
    StakeMonotone(validators, Ovl, a, b);
    StakeMonotone(validators, Drc, a, b);
  }

  /**
   Without active stake in a lane no totals are final; with it, the whole set always is. When nobody has
   OVL stake but somebody has DRC stake, OVL is what the whole set waits for.
   */
  lemma EveryoneFinalizesIff(validators: seq<Validator>, s: set<nat>, t: Totals)
    requires HoldsAll(validators, s)
    ensures t.ovlActive <= 0 || t.drcActive <= 0 || !t.powWorkMet ==> TridentLightState(t) != Finalized
    ensures FinalizedBy(validators, s) <==>
            (exists i, j :: 0 <= i < |validators| && 0 <= j < |validators| &&
                            validators[i].ovl > 0 && validators[j].drc > 0)
    ensures TridentLightState(TotalsOf(validators, s)).AwaitingOvlQuorum? <==>
            && (forall i :: 0 <= i < |validators| ==> validators[i].ovl == 0)
            && (exists j :: 0 <= j < |validators| && validators[j].drc > 0)
  {
    StakePositiveIff(validators, Ovl, s);
    StakePositiveIff(validators, Drc, s);
    StakeWithinActive(validators, Ovl, s);
    StakeWithinActive(validators, Drc, s);
  }

  lemma {:induction false} StakePositiveIff(validators: seq<Validator>, lane: Lane, s: set<nat>)
    ensures Stake(validators, lane, s) > 0 <==>
            exists i :: 0 <= i < |validators| && i in s && StakeOf(validators[i], lane) > 0
  {
    var n := |validators|;
    if n > 0 {
      StakePositiveIff(validators[..n - 1], lane, s);
      if i: nat :| i < n && i in s && StakeOf(validators[i], lane) > 0 {
        assert i < n - 1 ==> validators[..n - 1][i] == validators[i];
      }
    }
  }

  // ---------------------------------------------------------------------------
  // What a light client may conclude
  // ---------------------------------------------------------------------------

  /**
   If the check succeeds against the Merkle root of a block's transactions and reports Finalized for the
   totals of two signer sets, the transaction is in the block at that index, or a digest collision is
   exhibited, and any other finalising signer set overlaps by a third of the stake in both lanes.
   */
  lemma LightFinality(h: Digest, txIds: seq<Bytes>, p: Proof, validators: seq<Validator>, a: set<nat>, b: set<nat>)
    requires Yields32(h) && Digests(txIds) && 0 <= p.index < |txIds| && |p.txId| == 32 && |p.siblings| == Depth(|txIds|)
    requires Accepts(HasherOf(h), Root(HasherOf(h), txIds), p)
    requires FinalizedBy(validators, a) && FinalizedBy(validators, b)
    ensures p.txId == txIds[p.index] || Collides(h, FindCollision(h, txIds, p.txId, p.index, p.siblings))
    ensures forall lane :: Stake(validators, lane, a * b) * 3 >= Active(validators, lane) > 0
  {
    hide Root, Depth, FindCollision, Accepts;
    ProofBinding(h, txIds, p);
    forall lane
      ensures Stake(validators, lane, a * b) * 3 >= Active(validators, lane) > 0
    {
      LaneIntersects(validators, lane, a, b);
    }
  }
}

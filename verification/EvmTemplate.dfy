/** Merging raw Ethereum envelopes from the local inbox and from gossip onto a block template. */
module EvmTemplate {
  import opened Bytes

  const TEMPLATE_LIMIT := 128

  datatype Execution = AgoraSigned(id: nat) | RawEnvelope(payload: Bytes)

  /** The payloads under the gas check that were not seen before, in order. */
  function Picks(raws: seq<Bytes>, gasOk: Bytes -> bool, seen: seq<Bytes>): seq<Bytes>
  {
    if |raws| == 0 then []
    else
      var front, last := Picks(raws[..|raws| - 1], gasOk, seen), raws[|raws| - 1];
      if last !in seen && gasOk(last) then front + [last] else front
  }

  function Envelopes(raws: seq<Bytes>): seq<Execution>
  {
    if |raws| == 0 then [] else Envelopes(raws[..|raws| - 1]) + [RawEnvelope(raws[|raws| - 1])]
  }

  function Upto(raws: seq<Bytes>, n: int): seq<Bytes> { if n <= 0 then [] else if |raws| <= n then raws else raws[..n] }

  /** The inbox first, then the gossip pool without what the inbox gave, as long as there is room. */
  function Added(inbox: seq<Bytes>, gossip: seq<Bytes>, gasOk: Bytes -> bool, room: int): seq<Bytes>
  {
    var local := Picks(inbox, gasOk, []);
    Upto(local + Picks(gossip, gasOk, local), room)
  }

  lemma PicksSnoc(raws: seq<Bytes>, gasOk: Bytes -> bool, seen: seq<Bytes>, i: nat)
    requires i < |raws|
    ensures Picks(raws[..i + 1], gasOk, seen) ==
            Picks(raws[..i], gasOk, seen) + if raws[i] !in seen && gasOk(raws[i]) then [raws[i]] else []
  {
    assert raws[..i + 1][..i] == raws[..i];
  }

  lemma {:induction false} PicksPrefix(raws: seq<Bytes>, gasOk: Bytes -> bool, seen: seq<Bytes>, i: nat)
    requires i <= |raws|
    ensures Picks(raws[..i], gasOk, seen) <= Picks(raws, gasOk, seen)
    decreases |raws| - i
  {
    if i == |raws| {
      assert raws[..i] == raws;
    } else {
      PicksPrefix(raws, gasOk, seen, i + 1);
      PicksSnoc(raws, gasOk, seen, i);
    }
  }

  lemma EnvelopesSnoc(raws: seq<Bytes>, last: Bytes)
    ensures Envelopes(raws + [last]) == Envelopes(raws) + [RawEnvelope(last)]
  {
  }

  lemma {:induction false} EnvelopesLength(raws: seq<Bytes>)
    ensures |Envelopes(raws)| == |raws|
  {
    if |raws| > 0 {
      EnvelopesLength(raws[..|raws| - 1]);
    }
  }

  lemma {:induction false} EnvelopesJoin(a: seq<Bytes>, b: seq<Bytes>)
    ensures Envelopes(a + b) == Envelopes(a) + Envelopes(b)
  {
    if |b| == 0 {
      assert a + b == a && Envelopes(a) + [] == Envelopes(a);
    } else {
      var front, last := b[..|b| - 1], b[|b| - 1];
      EnvelopesJoin(a, front);
      assert a + b == a + front + [last];
      EnvelopesSnoc(a + front, last);
    }
  }

  lemma UptoFull(raws: seq<Bytes>, taken: seq<Bytes>, n: int)
    requires taken <= raws && |taken| >= n && (|taken| > 0 ==> |taken| == n)
    ensures Upto(raws, n) == taken
  {
  }

  /** One source: stops at the limit, skips what was seen and what fails the gas check. */
  method TakeFrom(executions: seq<Execution>, raws: seq<Bytes>, gasOk: Bytes -> bool, seen: seq<Bytes>)
    returns (out: seq<Execution>, picks: seq<Bytes>)
    ensures picks == Upto(Picks(raws, gasOk, seen), TEMPLATE_LIMIT - |executions|)
    ensures out == executions + Envelopes(picks)
  {
    hide Picks, Envelopes;
    ghost var room := TEMPLATE_LIMIT - |executions|;
    out, picks := executions, [];
    NothingYet(raws, gasOk, seen);
    for i := 0 to |raws|
      invariant picks == Picks(raws[..i], gasOk, seen) && out == executions + Envelopes(picks)
      invariant |out| == |executions| + |picks| && (|picks| > 0 ==> |picks| <= room)
    {
      if |out| >= TEMPLATE_LIMIT {
        PicksPrefix(raws, gasOk, seen, i);
        UptoFull(Picks(raws, gasOk, seen), picks, room);
        return;
      }
      PicksSnoc(raws, gasOk, seen, i);
      if raws[i] in seen { continue; }
      if !gasOk(raws[i]) { continue; }
      EnvelopesSnoc(picks, raws[i]);
      picks := picks + [raws[i]];
      out := out + [RawEnvelope(raws[i])];
    }
    assert raws[..|raws|] == raws;
  }

  lemma NothingYet(raws: seq<Bytes>, gasOk: Bytes -> bool, seen: seq<Bytes>)
    ensures Picks(raws[..0], gasOk, seen) == [] && Envelopes([]) == []
  {
  }

  lemma UptoJoin(a: seq<Bytes>, b: seq<Bytes>, n: int)
    ensures Upto(a + b, n) == Upto(a, n) + Upto(b, n - |Upto(a, n)|)
  {
  }

  lemma MergeSplits(inbox: seq<Bytes>, gossip: seq<Bytes>, gasOk: Bytes -> bool, room: int)
    ensures var seen := Upto(Picks(inbox, gasOk, []), room);
            Added(inbox, gossip, gasOk, room) == seen + Upto(Picks(gossip, gasOk, seen), room - |seen|)
  {
    hide Picks;
    var local := Picks(inbox, gasOk, []);
    UptoJoin(local, Picks(gossip, gasOk, local), room);
  }

  lemma Appended(executions: seq<Execution>, a: seq<Bytes>, b: seq<Bytes>)
    ensures |executions + Envelopes(a)| == |executions| + |a|
    ensures executions + Envelopes(a) + Envelopes(b) == executions + Envelopes(a + b)
  {
    hide Envelopes;
    EnvelopesLength(a);
    EnvelopesJoin(a, b);
  }

  /** The pending inbox, then the gossip pool; nothing on mainnet or while the EVM world is not active. */
  method AppendLocalEvmExecutions(executions: seq<Execution>, enabled: bool, inbox: seq<Bytes>, gossip: seq<Bytes>,
                                  gasOk: Bytes -> bool) returns (out: seq<Execution>)
    ensures !enabled ==> out == executions
    ensures enabled ==> out == executions + Envelopes(Added(inbox, gossip, gasOk, TEMPLATE_LIMIT - |executions|))
  {
    if !enabled { return executions; }
    hide Picks, Envelopes, Upto, Added;
    var local, seen := TakeFrom(executions, inbox, gasOk, []);
    Appended(executions, seen, []);
    ghost var room := TEMPLATE_LIMIT - |executions|;
    assert TEMPLATE_LIMIT - |local| == room - |seen|;
    var more;
    out, more := TakeFrom(local, gossip, gasOk, seen);
    assert seen + more == Added(inbox, gossip, gasOk, room) by { MergeSplits(inbox, gossip, gasOk, room); }
    Appended(executions, seen, more);
  }

  // ---------------------------------------------------------------------------
  // What the merge guarantees
  // ---------------------------------------------------------------------------

  ghost predicate Distinct(s: seq<Bytes>) { forall i, j :: 0 <= i < j < |s| ==> s[i] != s[j] }

  lemma {:induction false} PicksFacts(raws: seq<Bytes>, gasOk: Bytes -> bool, seen: seq<Bytes>)
    ensures forall x :: x in Picks(raws, gasOk, seen) <==> x in raws && x !in seen && gasOk(x)
    ensures Distinct(raws) ==> Distinct(Picks(raws, gasOk, seen))
  {
    if |raws| > 0 {
      var front, last := raws[..|raws| - 1], raws[|raws| - 1];
      PicksFacts(front, gasOk, seen);
      assert raws == front + [last];
      assert Distinct(raws) ==> Distinct(front) && last !in front;
    }
  }

  lemma UptoFacts(raws: seq<Bytes>, n: int)
    ensures forall x :: x in Upto(raws, n) ==> x in raws
    ensures Distinct(raws) ==> Distinct(Upto(raws, n))
    ensures n >= 0 ==> |Upto(raws, n)| <= n
    ensures |Upto(raws, n)| < n ==> Upto(raws, n) == raws
  {
  }

  lemma DistinctJoin(a: seq<Bytes>, b: seq<Bytes>)
    requires Distinct(a) && Distinct(b) && forall x :: x in b ==> x !in a
    ensures Distinct(a + b)
  {
    var s := a + b;
    forall i, j | 0 <= i < j < |s|
      ensures s[i] != s[j]
    {
      if i < |a| <= j {
        assert b[j - |a|] in b && a[i] in a;
      }
    }
  }

  /** What `a` holds occurs in `b` in the same order. */
  predicate IsSubsequence(a: seq<Bytes>, b: seq<Bytes>)
  {
    |a| == 0 ||
    (|b| > 0 &&
     (IsSubsequence(a, b[..|b| - 1]) || (a[|a| - 1] == b[|b| - 1] && IsSubsequence(a[..|a| - 1], b[..|b| - 1]))))
  }

  lemma {:induction false} DropLast(a: seq<Bytes>, b: seq<Bytes>)
    requires IsSubsequence(a, b) && |a| > 0
    ensures IsSubsequence(a[..|a| - 1], b)
  {
    if IsSubsequence(a, b[..|b| - 1]) {
      DropLast(a, b[..|b| - 1]);
    }
  }

  lemma SubsequenceGrows(a: seq<Bytes>, b: seq<Bytes>, last: Bytes)
    requires IsSubsequence(a, b)
    ensures IsSubsequence(a, b + [last]) && IsSubsequence(a + [last], b + [last])
  {
    assert (b + [last])[..|b|] == b && (a + [last])[..|a|] == a;
  }

  lemma {:induction false} PicksInOrder(raws: seq<Bytes>, gasOk: Bytes -> bool, seen: seq<Bytes>)
    ensures IsSubsequence(Picks(raws, gasOk, seen), raws)
  {
    if |raws| > 0 {
      var front, last := raws[..|raws| - 1], raws[|raws| - 1];
      PicksInOrder(front, gasOk, seen);
      SubsequenceGrows(Picks(front, gasOk, seen), front, last);
      assert raws == front + [last];
    }
  }

  lemma {:induction false} PrefixInOrder(a: seq<Bytes>, b: seq<Bytes>, n: nat)
    requires IsSubsequence(a, b) && n <= |a|
    ensures IsSubsequence(a[..n], b)
    decreases |a| - n
  {
    if n < |a| {
      PrefixInOrder(a, b, n + 1);
      DropLast(a[..n + 1], b);
      assert a[..n + 1][..n] == a[..n];
    } else {
      assert a[..n] == a;
    }
  }

  /**
   The added payloads are some of the inbox in its order, then some of gossip in its order; and gossip
   gets room only when everything of the inbox that passes is in.
   */
  lemma InboxFirst(inbox: seq<Bytes>, gossip: seq<Bytes>, gasOk: Bytes -> bool, room: int) returns (k: nat)
    ensures var added := Added(inbox, gossip, gasOk, room);
            && k <= |added| && IsSubsequence(added[..k], inbox) && IsSubsequence(added[k..], gossip)
            && (k < |added| ==> forall x :: x in inbox && gasOk(x) ==> x in added[..k])
  {
    hide Picks;
    var local := Picks(inbox, gasOk, []);
    var rest := Picks(gossip, gasOk, local);
    var added := Added(inbox, gossip, gasOk, room);
    k := if |added| < |local| then |added| else |local|;
    PicksInOrder(inbox, gasOk, []);
    PicksInOrder(gossip, gasOk, local);
    PicksFacts(inbox, gasOk, []);
    PrefixInOrder(local, inbox, k);
    PrefixInOrder(rest, gossip, |added| - k);
    assert added[..k] == local[..k] && added[k..] == rest[..|added| - k];
  }

  /**
   The limit is kept when the signed executions keep it; every added payload passes the gas check and
   comes from one of the two sources; none is added twice if neither source repeats one; and none
   that passes is left out while there is room.
   */
  lemma MergeGuarantees(n: nat, inbox: seq<Bytes>, gossip: seq<Bytes>, gasOk: Bytes -> bool)
    ensures var added := Added(inbox, gossip, gasOk, TEMPLATE_LIMIT - n);
            && (n <= 128 ==> n + |added| <= 128)
            && (forall x :: x in added ==> gasOk(x) && (x in inbox || x in gossip))
            && (Distinct(inbox) && Distinct(gossip) ==> Distinct(added))
            && (n + |added| < 128 ==> forall x :: gasOk(x) && (x in inbox || x in gossip) ==> x in added)
  {
    hide Picks, Upto;
    var local := Picks(inbox, gasOk, []);
    var rest := Picks(gossip, gasOk, local);
    PicksFacts(inbox, gasOk, []);
    PicksFacts(gossip, gasOk, local);
    if Distinct(inbox) && Distinct(gossip) {
      DistinctJoin(local, rest);
    }
    UptoFacts(local + rest, TEMPLATE_LIMIT - n);
  }
}

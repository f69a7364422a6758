/**
 Deterministic TLT coin selection: an exhaustive search over the twelve largest coins that keeps
 the best subset under (change, number of inputs, lexicographic index list), and a largest-first
 fallback when that window cannot pay.

 Everything the search decides depends on the coin values alone, so the search is specified over
 the sequence of values of the ordered coins; `Chosen` is the index list it must return.
 */
module CoinSelect {
  import opened Common

  datatype Coin = Coin(txId: string, index: nat, value: nat)

  datatype SelectError =
    | AmountNotPositive
    | Overflow
    | Insufficient(have: nat, need: int)

  datatype Selection = Selected(coins: seq<Coin>) | Rejected(error: SelectError)

  const EXHAUSTIVE_CAP := 12
  const MAX_SAFE_INTEGER := 0x1F_FFFF_FFFF_FFFF

  // ---------------------------------------------------------------------------
  // Ordering of coins
  // ---------------------------------------------------------------------------

  predicate IsBlank(c: char) { c in {' ', '\t', '\n', '\r'} }

  function TrimLeft(s: string): string { if s != "" && IsBlank(s[0]) then TrimLeft(s[1..]) else s }

  function TrimRight(s: string): string
  {
    if s != "" && IsBlank(s[|s| - 1]) then TrimRight(s[..|s| - 1]) else s
  }

  function Lower(s: string): string
  {
    if s == "" then "" else [if 'A' <= s[0] <= 'Z' then s[0] - 'A' + 'a' else s[0]] + Lower(s[1..])
  }

  function CoinKey(txId: string): string
  {
    var s := Lower(TrimRight(TrimLeft(txId)));
    if "0x" <= s then s[2..] else s
  }

  /** What the comparator looks at. */
  datatype Key = Key(value: nat, id: string, index: nat)

  function KeyOf(c: Coin): Key { Key(c.value, CoinKey(c.txId), c.index) }

  function Keys(coins: seq<Coin>): seq<Key>
  {
    seq(|coins|, i requires 0 <= i < |coins| => KeyOf(coins[i]))
  }

  predicate LexLt(a: string, b: string)
  {
    b != "" && (a == "" || a[0] < b[0] || (a[0] == b[0] && LexLt(a[1..], b[1..])))
  }

  /** The comparator returns a value <= 0: larger value first, then id, then output index. */
  predicate KeyLe(a: Key, b: Key)
  {
    || a.value > b.value
    || (a.value == b.value && (LexLt(a.id, b.id) || (a.id == b.id && a.index <= b.index)))
  }

  lemma {:induction false} LexTotal(a: string, b: string)
    ensures a == b || LexLt(a, b) || LexLt(b, a)
    ensures !(LexLt(a, b) && LexLt(b, a)) && !LexLt(a, a)
  {
    if a != "" {
      LexTotal(a[1..], a[1..]);
      if b != "" && a[0] == b[0] {
        LexTotal(a[1..], b[1..]);
        assert a == [a[0]] + a[1..] && b == [b[0]] + b[1..];
      }
    }
  }

  lemma {:induction false} LexTransitive(a: string, b: string, c: string)
    requires LexLt(a, b) && LexLt(b, c)
    ensures LexLt(a, c)
  {
    if a != "" && a[0] == b[0] && b[0] == c[0] {
      LexTransitive(a[1..], b[1..], c[1..]);
    }
  }

  /** The comparator is a total order on keys. */
  lemma KeyOrder(a: Key, b: Key, c: Key)
    ensures KeyLe(a, b) || KeyLe(b, a)
    ensures KeyLe(a, b) && KeyLe(b, a) ==> a == b
    ensures KeyLe(a, b) && KeyLe(b, c) ==> KeyLe(a, c)
  {
    LexTotal(a.id, b.id);
    if LexLt(a.id, b.id) && LexLt(b.id, c.id) {
      LexTransitive(a.id, b.id, c.id);
    }
  }

  ghost predicate Ordered(ks: seq<Key>) { forall i, j :: 0 <= i < j < |ks| ==> KeyLe(ks[i], ks[j]) }

  lemma OrderedCons(c: Coin, rest: seq<Coin>)
    requires Ordered(Keys(rest)) && forall d :: d in rest ==> KeyLe(KeyOf(c), KeyOf(d))
    ensures Ordered(Keys([c] + rest))
  {
    var all := [c] + rest;
    forall i, j | 0 <= i < j < |all| ensures KeyLe(Keys(all)[i], Keys(all)[j]) {
      assert all[j] == rest[j - 1];
      assert i > 0 ==> KeyLe(Keys(rest)[i - 1], Keys(rest)[j - 1]);
    }
  }

  lemma HeadIsLeast(sorted: seq<Coin>, d: Coin)
    requires Ordered(Keys(sorted)) && d in sorted
    ensures KeyLe(KeyOf(sorted[0]), KeyOf(d))
  {
    var k :| 0 <= k < |sorted| && sorted[k] == d;
    KeyOrder(KeyOf(d), KeyOf(d), KeyOf(d));
    assert k == 0 || KeyLe(Keys(sorted)[0], Keys(sorted)[k]);
  }

  /** Insertion before the first coin that does not come strictly earlier, which keeps ties stable. */
  function Insert(c: Coin, sorted: seq<Coin>): (r: seq<Coin>)
  {
    if sorted == [] || KeyLe(KeyOf(c), KeyOf(sorted[0])) then [c] + sorted
    else [sorted[0]] + Insert(c, sorted[1..])
  }

  lemma {:induction false} InsertAdds(c: Coin, sorted: seq<Coin>)
    ensures multiset(Insert(c, sorted)) == multiset(sorted) + multiset{c}
  {
    if sorted != [] && !KeyLe(KeyOf(c), KeyOf(sorted[0])) {
      InsertAdds(c, sorted[1..]);
      assert sorted == [sorted[0]] + sorted[1..];
    }
  }

  lemma {:induction false} InsertMember(c: Coin, sorted: seq<Coin>, d: Coin)
    requires d in Insert(c, sorted)
    ensures d == c || d in sorted
  {
    if sorted != [] && !KeyLe(KeyOf(c), KeyOf(sorted[0])) && d != sorted[0] {
      InsertMember(c, sorted[1..], d);
    }
  }

  lemma InsertFront(c: Coin, sorted: seq<Coin>)
    requires Ordered(Keys(sorted)) && (sorted == [] || KeyLe(KeyOf(c), KeyOf(sorted[0])))
    ensures Ordered(Keys([c] + sorted))
  {
    forall d | d in sorted ensures KeyLe(KeyOf(c), KeyOf(d)) {
      HeadIsLeast(sorted, d);
      KeyOrder(KeyOf(c), KeyOf(sorted[0]), KeyOf(d));
    }
    OrderedCons(c, sorted);
  }

  lemma {:induction false} InsertOrdered(c: Coin, sorted: seq<Coin>)
    requires Ordered(Keys(sorted))
    ensures Ordered(Keys(Insert(c, sorted)))
  {
    if sorted == [] || KeyLe(KeyOf(c), KeyOf(sorted[0])) {
      InsertFront(c, sorted);
    } else {
      var head, rest := sorted[0], sorted[1..];
      assert Keys(rest) == Keys(sorted)[1..];
      InsertOrdered(c, rest);
      forall d | d in Insert(c, rest) ensures KeyLe(KeyOf(head), KeyOf(d)) {
        InsertMember(c, rest, d);
        KeyOrder(KeyOf(c), KeyOf(head), KeyOf(c));
        if d in rest {
          HeadIsLeast(sorted, d);
        }
      }
      OrderedCons(head, Insert(c, rest));
    }
  }

  /** The stable sort of the coin list under the comparator. */
  function SortCoins(coins: seq<Coin>): seq<Coin>
  {
    if coins == [] then [] else Insert(coins[0], SortCoins(coins[1..]))
  }

  lemma {:induction false} SortOrders(coins: seq<Coin>)
    ensures Ordered(Keys(SortCoins(coins)))
  {
    if coins != [] {
      SortOrders(coins[1..]);
      InsertOrdered(coins[0], SortCoins(coins[1..]));
    }
  }

  lemma {:induction false} SortPermutes(coins: seq<Coin>)
    ensures multiset(SortCoins(coins)) == multiset(coins)
  {
    if coins != [] {
      SortPermutes(coins[1..]);
      InsertAdds(coins[0], SortCoins(coins[1..]));
      assert coins == [coins[0]] + coins[1..];
    }
  }

  lemma SortLength(coins: seq<Coin>)
    ensures |SortCoins(coins)| == |coins|
  {
    SortPermutes(coins);
    assert |multiset(SortCoins(coins))| == |multiset(coins)|;
  }

  lemma Cancel<T>(e: T, x: multiset<T>, y: multiset<T>)
    requires multiset{e} + x == multiset{e} + y
    ensures x == y
  {
    assert x == (multiset{e} + x) - multiset{e};
    assert y == (multiset{e} + y) - multiset{e};
  }

  function Drop<T>(s: seq<T>, k: nat): seq<T>
    requires k < |s|
  {
    s[..k] + s[k + 1..]
  }

  lemma DropRemoves<T>(s: seq<T>, k: nat)
    requires k < |s|
    ensures multiset(s) == multiset{s[k]} + multiset(Drop(s, k))
  {
    assert s == s[..k] + [s[k]] + s[k + 1..];
  }

  lemma KeysDrop(coins: seq<Coin>, k: nat)
    requires k < |coins|
    ensures Keys(Drop(coins, k)) == Drop(Keys(coins), k)
  {
  }

  lemma {:induction false} KeysOfPermutation(a: seq<Coin>, b: seq<Coin>)
    requires multiset(a) == multiset(b)
    ensures multiset(Keys(a)) == multiset(Keys(b))
  {
    assert |multiset(a)| == |a| && |multiset(b)| == |b|;
    if a != [] {
      assert a[0] in multiset(b);
      var k: nat :| k < |b| && b[k] == a[0];
      DropRemoves(a, 0);
      DropRemoves(b, k);
      Cancel(a[0], multiset(Drop(a, 0)), multiset(Drop(b, k)));
      KeysOfPermutation(Drop(a, 0), Drop(b, k));
      KeysDrop(a, 0);
      KeysDrop(b, k);
      DropRemoves(Keys(a), 0);
      DropRemoves(Keys(b), k);
    }
  }

  /** A sorted arrangement of given keys is unique. */
  lemma {:induction false} OrderedUnique(a: seq<Key>, b: seq<Key>)
    requires Ordered(a) && Ordered(b) && multiset(a) == multiset(b)
    ensures a == b
  {
    assert |multiset(a)| == |a| && |multiset(b)| == |b|;
    if a != [] {
      assert a[0] in multiset(b) && b[0] in multiset(a);
      var i :| 0 <= i < |b| && b[i] == a[0];
      var j :| 0 <= j < |a| && a[j] == b[0];
      KeyOrder(a[0], b[0], a[0]);
      assert a == [a[0]] + a[1..] && b == [b[0]] + b[1..];
      assert multiset(a) == multiset{a[0]} + multiset(a[1..]);
      assert multiset(b) == multiset{b[0]} + multiset(b[1..]);
      Cancel(a[0], multiset(a[1..]), multiset(b[1..]));
      OrderedUnique(a[1..], b[1..]);
    }
  }

  // ---------------------------------------------------------------------------
  // Index lists and sums
  // ---------------------------------------------------------------------------

  /** A subset of the coins below `n`, as the increasing list of its indices. */
  predicate IsSubset(idxs: seq<nat>, n: nat)
  {
    && (forall k :: 0 <= k < |idxs| ==> idxs[k] < n)
    && (forall k, l :: 0 <= k < l < |idxs| ==> idxs[k] < idxs[l])
  }

  function Values(coins: seq<Coin>): seq<nat>
  {
    seq(|coins|, i requires 0 <= i < |coins| => coins[i].value)
  }

  function Total(vs: seq<nat>): nat
  {
    if vs == [] then 0 else Total(vs[..|vs| - 1]) + vs[|vs| - 1]
  }

  function Sum(vs: seq<nat>, idxs: seq<nat>): nat
    requires IsSubset(idxs, |vs|)
  {
    if idxs == [] then 0 else Sum(vs, idxs[..|idxs| - 1]) + vs[idxs[|idxs| - 1]]
  }

  function Pick(coins: seq<Coin>, idxs: seq<nat>): seq<Coin>
    requires IsSubset(idxs, |coins|)
  {
    seq(|idxs|, k requires 0 <= k < |idxs| => coins[idxs[k]])
  }

  function Upto(k: nat): seq<nat>
  {
    seq(k, i => i)
  }

  lemma {:induction false} PickTotal(coins: seq<Coin>, idxs: seq<nat>)
    requires IsSubset(idxs, |coins|)
    ensures Total(Values(Pick(coins, idxs))) == Sum(Values(coins), idxs)
  {
    if idxs != [] {
      var front := idxs[..|idxs| - 1];
      PickTotal(coins, front);
      var vs := Values(Pick(coins, idxs));
      assert vs[..|vs| - 1] == Values(Pick(coins, front));
    }
  }

  lemma {:induction false} SumUpto(vs: seq<nat>, k: nat)
    requires k <= |vs|
    ensures IsSubset(Upto(k), |vs|) && Sum(vs, Upto(k)) == Total(vs[..k])
  {
    if k != 0 {
      SumUpto(vs, k - 1);
      assert Upto(k)[..k - 1] == Upto(k - 1);
      assert vs[..k][..k - 1] == vs[..k - 1];
    }
  }

  lemma SumSnoc(vs: seq<nat>, idxs: seq<nat>, i: nat)
    requires i < |vs| && IsSubset(idxs, i)
    ensures IsSubset(idxs, |vs|) && IsSubset(idxs + [i], |vs|)
    ensures Sum(vs, idxs + [i]) == Sum(vs, idxs) + vs[i]
  {
  }

  lemma {:induction false} SumInWindow(vs: seq<nat>, n: nat, idxs: seq<nat>)
    requires n <= |vs| && IsSubset(idxs, n)
    ensures IsSubset(idxs, |vs|) && Sum(vs[..n], idxs) == Sum(vs, idxs)
  {
    if idxs != [] {
      SumInWindow(vs, n, idxs[..|idxs| - 1]);
    }
  }

  lemma DropSubset(idxs: seq<nat>, k: nat, n: nat)
    requires IsSubset(idxs, n) && k < |idxs|
    ensures IsSubset(Drop(idxs, k), n)
  {
  }

  lemma DropFront(idxs: seq<nat>, k: nat)
    requires k < |idxs|
    ensures |Drop(idxs, k)| == |idxs| - 1
    ensures k == |idxs| - 1 ==> Drop(idxs, k) == idxs[..k]
    ensures k < |idxs| - 1 ==>
              && Drop(idxs, k)[..|idxs| - 2] == Drop(idxs[..|idxs| - 1], k)
              && Drop(idxs, k)[|idxs| - 2] == idxs[|idxs| - 1]
  {
  }

  lemma SumFront(vs: seq<nat>, idxs: seq<nat>)
    requires IsSubset(idxs, |vs|) && |idxs| > 0
    ensures IsSubset(idxs[..|idxs| - 1], |vs|) && idxs[|idxs| - 1] < |vs|
    ensures Sum(vs, idxs) == Sum(vs, idxs[..|idxs| - 1]) + vs[idxs[|idxs| - 1]]
  {
  }

  /** Dropping the coin at position `k` of the list drops exactly its value. */
  lemma {:induction false} SumWithout(vs: seq<nat>, idxs: seq<nat>, k: nat)
    requires IsSubset(idxs, |vs|) && k < |idxs|
    ensures IsSubset(Drop(idxs, k), |vs|)
    ensures Sum(vs, Drop(idxs, k)) == Sum(vs, idxs) - vs[idxs[k]]
  {
    assert idxs[k] < |vs|;
    hide IsSubset, Sum, Drop;
    DropSubset(idxs, k, |vs|);
    DropFront(idxs, k);
    SumFront(vs, idxs);
    if k < |idxs| - 1 {
      SumWithout(vs, idxs[..|idxs| - 1], k);
      SumFront(vs, Drop(idxs, k));
    }
  }

  // ---------------------------------------------------------------------------
  // The preference order
  // ---------------------------------------------------------------------------

  datatype Candidate = Candidate(change: int, idxs: seq<nat>)

  predicate LexLess(a: seq<nat>, b: seq<nat>)
    requires |a| == |b|
  {
    a != [] && (a[0] < b[0] || (a[0] == b[0] && LexLess(a[1..], b[1..])))
  }

  predicate Precedes(a: Candidate, b: Candidate)
  {
    if a.change != b.change then a.change < b.change
    else if |a.idxs| != |b.idxs| then |a.idxs| < |b.idxs|
    else LexLess(a.idxs, b.idxs)
  }

  lemma {:induction false} LexLessOrder(a: seq<nat>, b: seq<nat>, c: seq<nat>)
    requires |a| == |b| == |c|
    ensures a == b || LexLess(a, b) || LexLess(b, a)
    ensures !LexLess(a, a)
    ensures LexLess(a, b) && LexLess(b, c) ==> LexLess(a, c)
  {
    if a != [] {
      LexLessOrder(a[1..], b[1..], c[1..]);
      assert a == [a[0]] + a[1..] && b == [b[0]] + b[1..];
    }
  }

  /** `Precedes` is a strict total order, so a least candidate is unique. */
  lemma PreferenceOrder(a: Candidate, b: Candidate, c: Candidate)
    ensures !Precedes(a, a)
    ensures a == b || Precedes(a, b) || Precedes(b, a)
    ensures Precedes(a, b) && Precedes(b, c) ==> Precedes(a, c)
  {
    LexLessOrder(a.idxs, a.idxs, a.idxs);
    if |a.idxs| == |b.idxs| {
      LexLessOrder(a.idxs, b.idxs, b.idxs);
      if |b.idxs| == |c.idxs| {
        LexLessOrder(a.idxs, b.idxs, c.idxs);
      }
    }
  }

  /** The comparison of the source, with its loop over the two index lists. */
  method Better(change: int, idxs: seq<nat>, best: Option<Candidate>) returns (better: bool)
    ensures better <==> best.None? || Precedes(Candidate(change, idxs), best.value)
  {
    if best.None? { return true; }
    if change != best.value.change { return change < best.value.change; }
    if |idxs| != |best.value.idxs| { return |idxs| < |best.value.idxs|; }
    for i := 0 to |idxs|
      invariant LexLess(idxs, best.value.idxs) == LexLess(idxs[i..], best.value.idxs[i..])
    {
      if idxs[i] != best.value.idxs[i] { return idxs[i] < best.value.idxs[i]; }
    }
    return false;
  }

  // ---------------------------------------------------------------------------
  // Bit masks and subsets
  // ---------------------------------------------------------------------------

  /** Bit `i` of the mask, counting from the least significant one. */
  predicate Bit(mask: nat, i: nat) { if i == 0 then mask % 2 == 1 else Bit(mask / 2, i - 1) }

  /** The indices below `n` of the set bits of `mask`, in increasing order. */
  function Bits(mask: nat, n: nat): seq<nat>
  {
    if n == 0 then [] else Bits(mask, n - 1) + (if Bit(mask, n - 1) then [n - 1] else [])
  }

  function MaskOf(idxs: seq<nat>): nat
  {
    if idxs == [] then 0 else MaskOf(idxs[..|idxs| - 1]) + Pow2(idxs[|idxs| - 1])
  }

  lemma {:induction false} HighBitHidden(mask: nat, j: nat, k: nat)
    requires k < j
    ensures Bit(mask + Pow2(j), k) == Bit(mask, k)
  {
    if k != 0 {
      HighBitHidden(mask / 2, j - 1, k - 1);
      assert (mask + Pow2(j)) / 2 == mask / 2 + Pow2(j - 1);
    }
  }

  lemma {:induction false} BitsIgnoreHigh(mask: nat, j: nat, n: nat)
    requires n <= j
    ensures Bits(mask + Pow2(j), n) == Bits(mask, n)
  {
    if n != 0 {
      BitsIgnoreHigh(mask, j, n - 1);
      HighBitHidden(mask, j, n - 1);
    }
  }

  lemma {:induction false} TopBit(mask: nat, j: nat)
    requires mask < Pow2(j)
    ensures Bit(mask + Pow2(j), j) && !Bit(mask, j)
  {
    if j != 0 {
      TopBit(mask / 2, j - 1);
      assert (mask + Pow2(j)) / 2 == mask / 2 + Pow2(j - 1);
    }
  }

  lemma BitsStep(mask: nat, j: nat)
    requires mask < Pow2(j)
    ensures Bits(mask, j + 1) == Bits(mask, j)
    ensures Bits(mask + Pow2(j), j + 1) == Bits(mask, j) + [j]
  {
    TopBit(mask, j);
    BitsIgnoreHigh(mask, j, j);
  }

  lemma SubsetFront(idxs: seq<nat>, n: nat)
    requires IsSubset(idxs, n) && idxs != []
    ensures IsSubset(idxs[..|idxs| - 1], idxs[|idxs| - 1])
  {
  }

  lemma SubsetBelow(idxs: seq<nat>, n: nat, k: nat)
    requires IsSubset(idxs, n) && (idxs != [] ==> idxs[|idxs| - 1] < k)
    ensures IsSubset(idxs, k)
  {
  }

  /** Every subset is the bit list of a mask the loop visits. */
  lemma {:induction false} MaskOfSubset(idxs: seq<nat>, n: nat)
    requires IsSubset(idxs, n)
    ensures MaskOf(idxs) < Pow2(n) && Bits(MaskOf(idxs), n) == idxs
    ensures idxs != [] ==> MaskOf(idxs) >= 1
  {
    if n != 0 {
      var m := |idxs| - 1;
      if idxs != [] && idxs[m] == n - 1 {
        SubsetFront(idxs, n);
        MaskOfSubset(idxs[..m], n - 1);
        BitsStep(MaskOf(idxs[..m]), n - 1);
        assert idxs == idxs[..m] + [n - 1];
      } else {
        SubsetBelow(idxs, n, n - 1);
        MaskOfSubset(idxs, n - 1);
        BitsStep(MaskOf(idxs), n - 1);
      }
    }
  }

  /** Only the zero mask, which the loop skips, denotes the empty subset. */
  lemma {:induction false} BitsNonEmpty(mask: nat, n: nat)
    requires 1 <= mask < Pow2(n)
    ensures Bits(mask, n) != []
  {
    if n != 0 {
      var p := Pow2(n - 1);
      if mask >= p {
        BitsStep(mask - p, n - 1);
      } else {
        BitsNonEmpty(mask, n - 1);
      }
    }
  }

  // ---------------------------------------------------------------------------
  // The specification of the search
  // ---------------------------------------------------------------------------

  ghost predicate Covers(vs: seq<nat>, target: int, idxs: seq<nat>)
  {
    IsSubset(idxs, |vs|) && idxs != [] && Sum(vs, idxs) >= target
  }

  ghost function Scored(vs: seq<nat>, target: int, idxs: seq<nat>): Candidate
    requires IsSubset(idxs, |vs|)
  {
    Candidate(Sum(vs, idxs) - target, idxs)
  }

  /** `idxs` strictly precedes every other non-empty covering subset. */
  ghost predicate IsBest(vs: seq<nat>, target: int, idxs: seq<nat>)
  {
    && Covers(vs, target, idxs)
    && forall other :: Covers(vs, target, other) && other != idxs ==>
         Precedes(Scored(vs, target, idxs), Scored(vs, target, other))
  }

  lemma BestUnique(vs: seq<nat>, target: int, a: seq<nat>, b: seq<nat>)
    requires IsBest(vs, target, a) && IsBest(vs, target, b)
    ensures a == b
  {
    var x, y := Scored(vs, target, a), Scored(vs, target, b);
    PreferenceOrder(x, y, x);
  }

  function Window(vs: seq<nat>): seq<nat>
  {
    if |vs| <= EXHAUSTIVE_CAP then vs else vs[..EXHAUSTIVE_CAP]
  }

  /** `k` is the length of the shortest prefix that covers the target (a prefix is never empty). */
  ghost predicate IsShortestPrefix(vs: seq<nat>, target: int, k: nat)
  {
    && 1 <= k <= |vs| && PrefixPays(vs, target, k)
    && forall j :: 1 <= j < k ==> !PrefixPays(vs, target, j)
  }

  ghost predicate PrefixPays(vs: seq<nat>, target: int, k: nat)
    requires k <= |vs|
  {
    Total(vs[..k]) >= target
  }

  /** The index list selection must return on ordered values, or None for "insufficient funds". */
  ghost function Chosen(vs: seq<nat>, target: int): Option<seq<nat>>
  {
    if exists idxs :: IsBest(Window(vs), target, idxs) then
      var idxs :| IsBest(Window(vs), target, idxs);
      Some(idxs)
    else if exists k :: IsShortestPrefix(vs, target, k) then
      var k :| IsShortestPrefix(vs, target, k);
      Some(Upto(k))
    else None
  }

  // ---------------------------------------------------------------------------
  // The search itself
  // ---------------------------------------------------------------------------

  /** The best of the masks below `mask`, if any of them covers. */
  ghost predicate BestBelow(vs: seq<nat>, target: int, mask: nat, best: Option<Candidate>)
  {
    && (best.Some? ==>
          && Covers(vs, target, best.value.idxs)
          && best.value == Scored(vs, target, best.value.idxs))
    && forall m :: 1 <= m < mask ==> Unbeaten(vs, target, m, best)
  }

  ghost predicate Unbeaten(vs: seq<nat>, target: int, m: nat, best: Option<Candidate>)
  {
    Covers(vs, target, Bits(m, |vs|)) ==>
      best.Some? && !Precedes(Scored(vs, target, Bits(m, |vs|)), best.value)
  }

  lemma BestBelowAll(vs: seq<nat>, target: int, best: Option<Candidate>)
    requires BestBelow(vs, target, Pow2(|vs|), best)
    ensures best.Some? ==> IsBest(vs, target, best.value.idxs)
    ensures best.None? ==> forall idxs :: !Covers(vs, target, idxs)
  {
    forall idxs | Covers(vs, target, idxs)
      ensures best.Some?
      ensures idxs != best.value.idxs ==> Precedes(best.value, Scored(vs, target, idxs))
    {
      MaskOfSubset(idxs, |vs|);
      assert Unbeaten(vs, target, MaskOf(idxs), best);
      PreferenceOrder(best.value, Scored(vs, target, idxs), best.value);
    }
  }

  lemma BestBelowStep(vs: seq<nat>, target: int, mask: nat, best: Option<Candidate>, c: Candidate)
    requires 1 <= mask < Pow2(|vs|) && BestBelow(vs, target, mask, best)
    requires Covers(vs, target, Bits(mask, |vs|)) && c == Scored(vs, target, Bits(mask, |vs|))
    ensures BestBelow(vs, target, mask + 1,
                      if best.None? || Precedes(c, best.value) then Some(c) else best)
  {
    if best.None? || Precedes(c, best.value) {
      forall m | 1 <= m < mask + 1 ensures Unbeaten(vs, target, m, Some(c)) {
        if Covers(vs, target, Bits(m, |vs|)) {
          assert m < mask ==> Unbeaten(vs, target, m, best);
          PreferenceOrder(Scored(vs, target, Bits(m, |vs|)), c, if best.Some? then best.value else c);
        }
      }
    }
  }

  lemma BestBelowSkip(vs: seq<nat>, target: int, mask: nat, best: Option<Candidate>)
    requires 1 <= mask && BestBelow(vs, target, mask, best) && !Covers(vs, target, Bits(mask, |vs|))
    ensures BestBelow(vs, target, mask + 1, best)
  {
    hide Bits, Precedes, Scored, Covers;
    assert Unbeaten(vs, target, mask, best);
  }

  /** The inner loop: the coins the mask names, and their total value. */
  method SumOfMask(coins: seq<Coin>, mask: nat) returns (sum: nat, idxs: seq<nat>)
    ensures idxs == Bits(mask, |coins|) && IsSubset(idxs, |Values(coins)|) && sum == Sum(Values(coins), idxs)
  {
    ghost var vs := Values(coins);
    sum, idxs := 0, [];
    for i := 0 to |coins|
      invariant idxs == Bits(mask, i) && IsSubset(idxs, i)
      invariant IsSubset(idxs, |vs|) && sum == Sum(vs, idxs)
    {
      if Bit(mask, i) {
        SumSnoc(vs, idxs, i);
        sum := sum + coins[i].value;
        idxs := idxs + [i];
      }
    }
  }

  /** The bitmask search. It fails exactly when the window is empty, too long or cannot cover. */
  method Exhaustive(coins: seq<Coin>, target: int) returns (r: Option<seq<nat>>)
    ensures r.Some? ==> |coins| <= EXHAUSTIVE_CAP && IsBest(Values(coins), target, r.value)
    ensures r.None? && |coins| <= EXHAUSTIVE_CAP ==> forall idxs :: !Covers(Values(coins), target, idxs)
  {
    var n := |coins|;
    if n == 0 || n > EXHAUSTIVE_CAP { return None; }
    ghost var vs := Values(coins);
    var best: Option<Candidate> := None;
    var limit := Pow2(n);
    var mask := 1;
    while mask < limit
      invariant 1 <= mask <= limit
      invariant BestBelow(vs, target, mask, best)
    {
      var sum, idxs := SumOfMask(coins, mask);
      BitsNonEmpty(mask, n);
      if sum >= target {
        var change := sum - target;
        var better := Better(change, idxs, best);
        BestBelowStep(vs, target, mask, best, Candidate(change, idxs));
        if better { best := Some(Candidate(change, idxs)); }
      } else {
        BestBelowSkip(vs, target, mask, best);
      }
      mask := mask + 1;
    }
    BestBelowAll(vs, target, best);
    r := if best.None? then None else Some(best.value.idxs);
  }

  /** Largest coins first until the target is met. */
  method LargestFirst(coins: seq<Coin>, target: int) returns (r: Option<seq<Coin>>)
    ensures r.Some? ==> IsShortestPrefix(Values(coins), target, |r.value|) && r.value == coins[..|r.value|]
    ensures r.None? <==> forall k :: !IsShortestPrefix(Values(coins), target, k)
  {
    ghost var vs := Values(coins);
    var sum := 0;
    var chosen: seq<Coin> := [];
    for i := 0 to |coins|
      invariant chosen == coins[..i] && sum == Total(vs[..i])
      invariant forall j :: 1 <= j <= i ==> !PrefixPays(vs, target, j)
    {
      sum := sum + coins[i].value;
      chosen := chosen + [coins[i]];
      assert vs[..i + 1][..i] == vs[..i];
      if sum >= target {
        assert IsShortestPrefix(vs, target, i + 1);
        return Some(chosen);
      }
    }
    return None;
  }

  ghost function OrderedSpec(ordered: seq<Coin>, target: int): Selection
  {
    match Chosen(Values(ordered), target)
    case None => Rejected(Insufficient(Total(Values(ordered)), target))
    case Some(idxs) =>
      ChosenIsSubset(Values(ordered), target);
      Selected(Pick(ordered, idxs))
  }

  ghost function SelectSpec(coins: seq<Coin>, amount: int, fee: int): Selection
  {
    if amount <= 0 then Rejected(AmountNotPositive)
    else if !(-MAX_SAFE_INTEGER <= amount + fee <= MAX_SAFE_INTEGER) then Rejected(Overflow)
    else OrderedSpec(SortCoins(coins), amount + fee)
  }

  /** The window first, then largest-first over all coins. */
  method SearchOrdered(ordered: seq<Coin>, target: int) returns (r: Selection)
    ensures r == OrderedSpec(ordered, target)
  {
    ghost var vs := Values(ordered);
    var head := if |ordered| <= EXHAUSTIVE_CAP then ordered else ordered[..EXHAUSTIVE_CAP];
    assert Values(head) == Window(vs);
    var window := Exhaustive(head, target);
    if window.Some? {
      ChosenIsBest(vs, target, window.value);
      assert Pick(head, window.value) == Pick(ordered, window.value);
      return Selected(Pick(head, window.value));
    }
    var fallback := LargestFirst(ordered, target);
    if fallback.Some? {
      ChosenIsPrefix(vs, target, |fallback.value|);
      assert Pick(ordered, Upto(|fallback.value|)) == fallback.value;
      return Selected(fallback.value);
    }
    ChosenIsNone(vs, target);
    return Rejected(Insufficient(Total(Values(ordered)), target));
  }

  /** Selects inputs covering `amount + fee`. */
  method SelectTltCoins(coins: seq<Coin>, amount: int, fee: int) returns (r: Selection)
    ensures r == SelectSpec(coins, amount, fee)
  {
    if amount <= 0 { return Rejected(AmountNotPositive); }
    var target := amount + fee;
    if !(-MAX_SAFE_INTEGER <= target <= MAX_SAFE_INTEGER) { return Rejected(Overflow); }
    r := SearchOrdered(SortCoins(coins), target);
  }

  lemma ChosenIsSubset(vs: seq<nat>, target: int)
    ensures Chosen(vs, target).Some? ==> IsSubset(Chosen(vs, target).value, |vs|)
  {
  }

  lemma ChosenIsBest(vs: seq<nat>, target: int, idxs: seq<nat>)
    requires IsBest(Window(vs), target, idxs)
    ensures Chosen(vs, target) == Some(idxs)
  {
    var other := Chosen(vs, target).value;
    assert IsBest(Window(vs), target, other);
    BestUnique(Window(vs), target, idxs, other);
  }

  lemma ChosenIsPrefix(vs: seq<nat>, target: int, k: nat)
    requires IsShortestPrefix(vs, target, k)
    requires forall idxs :: !Covers(Window(vs), target, idxs)
    ensures Chosen(vs, target) == Some(Upto(k))
  {
  }

  lemma ChosenIsNone(vs: seq<nat>, target: int)
    requires forall idxs :: !Covers(Window(vs), target, idxs)
    requires forall k :: !IsShortestPrefix(vs, target, k)
    ensures Chosen(vs, target) == None
  {
  }
}

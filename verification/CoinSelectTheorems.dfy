/**
 What selection guarantees, for every coin list and every target: exact success condition,
 optimality in the window, minimum input count in the fallback, necessity of every input,
 independence from the order of the coin list, and conservation of value in the built transfer.
 */
module CoinSelectTheorems {
  import opened CoinSelect
  import opened Common

  ghost predicate NonIncreasing(vs: seq<nat>)
  {
    forall i, j :: 0 <= i < j < |vs| ==> vs[i] >= vs[j]
  }

  lemma OrderedValues(coins: seq<Coin>)
    ensures NonIncreasing(Values(SortCoins(coins)))
  {
    var r := SortCoins(coins);
    SortOrders(coins);
    forall i, j | 0 <= i < j < |r| ensures r[i].value >= r[j].value {
      assert KeyLe(Keys(r)[i], Keys(r)[j]);
    }
  }

  predicate AllBlank(s: string) { forall i :: 0 <= i < |s| ==> s[i] in " \t\n\r" }

  lemma {:induction false} TrimLeftMeans(s: string) returns (blanks: string)
    ensures s == blanks + TrimLeft(s) && AllBlank(blanks)
    ensures TrimLeft(s) != "" ==> TrimLeft(s)[0] !in " \t\n\r"
  {
    if s != "" && IsBlank(s[0]) {
      var rest := TrimLeftMeans(s[1..]);
      blanks := [s[0]] + rest;
      assert s == [s[0]] + s[1..];
    } else {
      blanks := "";
    }
  }

  lemma {:induction false} TrimRightMeans(s: string) returns (blanks: string)
    ensures s == TrimRight(s) + blanks && AllBlank(blanks)
    ensures TrimRight(s) != "" ==> TrimRight(s)[0] == s[0] && TrimRight(s)[|TrimRight(s)| - 1] !in " \t\n\r"
  {
    if s != "" && IsBlank(s[|s| - 1]) {
      var rest := TrimRightMeans(s[..|s| - 1]);
      blanks := rest + [s[|s| - 1]];
      assert s == s[..|s| - 1] + [s[|s| - 1]];
    } else {
      blanks := "";
    }
  }

  lemma {:induction false} LowerMeans(s: string)
    ensures |Lower(s)| == |s|
    ensures forall i :: 0 <= i < |s| ==>
              Lower(s)[i] as int == s[i] as int + if 65 <= s[i] as int <= 90 then 32 else 0
  {
    if s != "" {
      LowerMeans(s[1..]);
    }
  }

  /** The id without white space around it, in lower case, and without one leading "0x". */
  lemma KeyMeans(id: string) returns (before: string, core: string, after: string)
    ensures id == before + core + after && AllBlank(before) && AllBlank(after)
    ensures core != "" ==> core[0] !in " \t\n\r" && core[|core| - 1] !in " \t\n\r"
    ensures if |Lower(core)| >= 2 && Lower(core)[0] == '0' && Lower(core)[1] == 'x'
            then Lower(core) == "0x" + CoinKey(id)
            else CoinKey(id) == Lower(core)
  {
    var rest := TrimLeft(id);
    before := TrimLeftMeans(id);
    after := TrimRightMeans(rest);
    core := TrimRight(rest);
    LowerMeans(core);
    var low := Lower(core);
    if |low| >= 2 && low[0] == '0' && low[1] == 'x' {
      assert low[..2] == "0x";
    }
  }

  /** `s` ends first, or has the smaller letter where the two first differ. */
  ghost predicate Before(s: string, t: string)
  {
    s < t || exists k :: SmallerAt(s, t, k)
  }

  ghost predicate SmallerAt(s: string, t: string, k: nat)
  {
    k < |s| && k < |t| && s[..k] == t[..k] && s[k] < t[k]
  }

  lemma {:induction false} LexLtMeans(s: string, t: string)
    requires LexLt(s, t)
    ensures Before(s, t)
  {
    if |s| > 0 {
      if s[0] < t[0] {
        assert SmallerAt(s, t, 0);
      } else {
        LexLtMeans(s[1..], t[1..]);
        assert s == [s[0]] + s[1..] && t == [t[0]] + t[1..];
        if k: nat :| SmallerAt(s[1..], t[1..], k) {
          assert s[..k + 1] == [s[0]] + s[1..][..k] && t[..k + 1] == [t[0]] + t[1..][..k];
          assert SmallerAt(s, t, k + 1);
        }
      }
    }
  }

  /** Larger coins come first; of equal ones that with the earlier id; of one transaction the lower index. */
  lemma SortedTies(coins: seq<Coin>, i: nat, j: nat)
    requires i < j < |SortCoins(coins)|
    ensures var a, b := SortCoins(coins)[i], SortCoins(coins)[j];
            && a.value >= b.value
            && (a.value == b.value ==> CoinKey(a.txId) == CoinKey(b.txId) || Before(CoinKey(a.txId), CoinKey(b.txId)))
            && (a.value == b.value && CoinKey(a.txId) == CoinKey(b.txId) ==> a.index <= b.index)
  {
    var r := SortCoins(coins);
    SortOrders(coins);
    hide SortCoins, CoinKey, LexLt;
    assert KeyLe(Keys(r)[i], Keys(r)[j]);
    var s, t := CoinKey(r[i].txId), CoinKey(r[j].txId);
    LexTotal(s, t);
    if LexLt(s, t) {
      LexLtMeans(s, t);
    }
  }

  // ---------------------------------------------------------------------------
  // When selection succeeds
  // ---------------------------------------------------------------------------

  /** A least candidate exists among finitely many masks. */
  lemma {:induction false} BestBelowExists(vs: seq<nat>, target: int, k: nat) returns (best: Option<Candidate>)
    requires k < Pow2(|vs|)
    ensures BestBelow(vs, target, k + 1, best)
  {
    if k == 0 {
      return None;
    }
    var prev := BestBelowExists(vs, target, k - 1);
    if Covers(vs, target, Bits(k, |vs|)) {
      var c := Scored(vs, target, Bits(k, |vs|));
      BestBelowStep(vs, target, k, prev, c);
      return if prev.None? || Precedes(c, prev.value) then Some(c) else prev;
    } else {
      BestBelowSkip(vs, target, k, prev);
      return prev;
    }
  }

  lemma BestExists(vs: seq<nat>, target: int, idxs: seq<nat>)
    requires Covers(vs, target, idxs)
    ensures exists b :: IsBest(vs, target, b)
  {
    var best := BestBelowExists(vs, target, Pow2(|vs|) - 1);
    BestBelowAll(vs, target, best);
    assert IsBest(vs, target, best.value.idxs);
  }

  lemma {:induction false} SumAtMostTotal(vs: seq<nat>, idxs: seq<nat>)
    requires IsSubset(idxs, |vs|)
    ensures Sum(vs, idxs) <= Total(vs)
  {
    if vs != [] {
      var n, m := |vs| - 1, |idxs| - 1;
      if idxs != [] && idxs[m] == n {
        SubsetFront(idxs, |vs|);
        SumInWindow(vs, n, idxs[..m]);
        SumAtMostTotal(vs[..n], idxs[..m]);
      } else {
        SubsetBelow(idxs, |vs|, n);
        SumInWindow(vs, n, idxs);
        SumAtMostTotal(vs[..n], idxs);
      }
    }
  }

  lemma {:induction false} ShortestPrefixExists(vs: seq<nat>, target: int, k: nat) returns (j: nat)
    requires 1 <= k <= |vs| && PrefixPays(vs, target, k)
    ensures IsShortestPrefix(vs, target, j) && j <= k
  {
    j := k;
    if i :| 1 <= i < k && PrefixPays(vs, target, i) {
      j := ShortestPrefixExists(vs, target, i);
    }
  }

  /** The chosen list covers the target with at least one coin. */
  lemma ChosenCovers(vs: seq<nat>, target: int)
    requires Chosen(vs, target).Some?
    ensures Covers(vs, target, Chosen(vs, target).value)
  {
    var idxs := Chosen(vs, target).value;
    if b :| IsBest(Window(vs), target, b) {
      ChosenIsBest(vs, target, b);
      if |vs| > EXHAUSTIVE_CAP {
        SumInWindow(vs, EXHAUSTIVE_CAP, idxs);
      }
    } else {
      var k: nat :| IsShortestPrefix(vs, target, k) && idxs == Upto(k);
      PrefixCovers(vs, target, k);
    }
  }

  lemma PrefixCovers(vs: seq<nat>, target: int, k: nat)
    requires 1 <= k <= |vs|
    ensures Covers(vs, target, Upto(k)) == PrefixPays(vs, target, k)
  {
    SumUpto(vs, k);
  }

  /** Nothing is chosen exactly when there is no coin or all coins together fall short. */
  lemma ChosenNoneIff(vs: seq<nat>, target: int)
    ensures Chosen(vs, target).None? <==> vs == [] || Total(vs) < target
  {
    if Chosen(vs, target).Some? {
      ChosenCovers(vs, target);
      SumAtMostTotal(vs, Chosen(vs, target).value);
    }
    if vs != [] && Total(vs) >= target {
      assert vs[..|vs|] == vs;
      var j := ShortestPrefixExists(vs, target, |vs|);
    }
  }

  lemma {:induction false} TotalDrop(vs: seq<nat>, k: nat)
    requires k < |vs|
    ensures Total(vs) == Total(Drop(vs, k)) + vs[k]
  {
    var n := |vs| - 1;
    if k == n {
      assert Drop(vs, k) == vs[..n];
    } else {
      TotalDrop(vs[..n], k);
      assert Drop(vs, k)[..n - 1] == Drop(vs[..n], k);
    }
  }

  lemma ValuesDrop(coins: seq<Coin>, k: nat)
    requires k < |coins|
    ensures Values(Drop(coins, k)) == Drop(Values(coins), k)
  {
  }

  lemma {:induction false} TotalOfPermutation(a: seq<Coin>, b: seq<Coin>)
    requires multiset(a) == multiset(b)
    ensures Total(Values(a)) == Total(Values(b))
  {
    assert |multiset(a)| == |a| && |multiset(b)| == |b|;
    if a != [] {
      assert a[0] in multiset(b);
      var k: nat :| k < |b| && b[k] == a[0];
      DropRemoves(a, 0);
      DropRemoves(b, k);
      Cancel(a[0], multiset(Drop(a, 0)), multiset(Drop(b, k)));
      TotalOfPermutation(Drop(a, 0), Drop(b, k));
      TotalDrop(Values(a), 0);
      TotalDrop(Values(b), k);
      ValuesDrop(a, 0);
      ValuesDrop(b, k);
    }
  }

  lemma RejectedIff(ordered: seq<Coin>, target: int)
    ensures OrderedSpec(ordered, target).Rejected? <==> |ordered| == 0 || Total(Values(ordered)) < target
    ensures OrderedSpec(ordered, target).Rejected? ==>
              OrderedSpec(ordered, target).error == Insufficient(Total(Values(ordered)), target)
  {
    assert |Values(ordered)| == |ordered|;
    ChosenNoneIff(Values(ordered), target);
  }

  lemma SortKeepsTotal(coins: seq<Coin>)
    ensures Total(Values(SortCoins(coins))) == Total(Values(coins))
  {
    SortPermutes(coins);
    TotalOfPermutation(coins, SortCoins(coins));
  }

  /**
   The "insufficient funds" error occurs exactly when the coins fall short (or there are none), and
   it reports the true totals.
   */
  lemma InsufficientIff(coins: seq<Coin>, amount: int, fee: int)
    requires amount > 0 && -MAX_SAFE_INTEGER <= amount + fee <= MAX_SAFE_INTEGER
    ensures SelectSpec(coins, amount, fee).Rejected? <==> |coins| == 0 || Total(Values(coins)) < amount + fee
    ensures SelectSpec(coins, amount, fee).Rejected? ==>
              SelectSpec(coins, amount, fee).error == Insufficient(Total(Values(coins)), amount + fee)
  {
    SortKeepsTotal(coins);
    SortLength(coins);
    hide SortCoins, Total, OrderedSpec;
    RejectedIff(SortCoins(coins), amount + fee);
  }

  /** The other errors: an amount that is not positive, and a target that is no safe integer. */
  lemma ErrorsMean(coins: seq<Coin>, amount: int, fee: int)
    ensures SelectSpec(coins, amount, fee) == Rejected(AmountNotPositive) <==> amount <= 0
    ensures SelectSpec(coins, amount, fee) == Rejected(Overflow) <==>
            amount > 0 && (amount + fee > 9007199254740991 || amount + fee < -9007199254740991)
  {
    hide SortCoins, Chosen, Total;
  }

  // ---------------------------------------------------------------------------
  // What is selected
  // ---------------------------------------------------------------------------

  /**
   When some non-empty subset of the window covers the target, the chosen list is the one that
   strictly precedes every other covering subset of the window.
   */
  lemma WindowOptimal(vs: seq<nat>, target: int, idxs: seq<nat>)
    requires Covers(Window(vs), target, idxs)
    ensures Chosen(vs, target).Some? && IsBest(Window(vs), target, Chosen(vs, target).value)
  {
    BestExists(Window(vs), target, idxs);
  }

  /** `a` has the smaller entry where the lists first differ. */
  ghost predicate FirstLess(a: seq<nat>, b: seq<nat>, k: nat)
  {
    k < |a| && k < |b| && a[..k] == b[..k] && a[k] < b[k]
  }

  lemma {:induction false} FirstDifference(a: seq<nat>, b: seq<nat>)
    requires |a| == |b| && LexLess(a, b)
    ensures exists k :: FirstLess(a, b, k)
  {
    if a[0] < b[0] {
      assert FirstLess(a, b, 0);
    } else {
      FirstDifference(a[1..], b[1..]);
      var k: nat :| FirstLess(a[1..], b[1..], k);
      assert a[..k + 1] == [a[0]] + a[1..][..k] && b[..k + 1] == [b[0]] + b[1..][..k];
      assert FirstLess(a, b, k + 1);
    }
  }

  /** Worth no more; of the same worth, no longer; as long too, equal or smaller where they first differ. */
  ghost predicate AtLeastAsGood(vs: seq<nat>, mine: seq<nat>, other: seq<nat>)
    requires IsSubset(mine, |vs|) && IsSubset(other, |vs|)
  {
    && Sum(vs, mine) <= Sum(vs, other)
    && (Sum(vs, mine) == Sum(vs, other) ==> |mine| <= |other|)
    && (Sum(vs, mine) == Sum(vs, other) && |mine| == |other| ==> mine == other || exists k :: FirstLess(mine, other, k))
  }

  lemma BestIsLeast(vs: seq<nat>, target: int, mine: seq<nat>, other: seq<nat>)
    requires IsBest(vs, target, mine) && Covers(vs, target, other)
    ensures AtLeastAsGood(vs, mine, other)
  {
    if mine != other {
      assert Precedes(Scored(vs, target, mine), Scored(vs, target, other));
      if |mine| == |other| && LexLess(mine, other) {
        FirstDifference(mine, other);
      }
    }
  }

  /**
   When the window can pay, what is chosen leaves the least change of all covering subsets of it, then
   has the fewest members, then the smaller index at the first difference.
   */
  lemma LeastChange(vs: seq<nat>, target: int, other: seq<nat>)
    requires Covers(Window(vs), target, other)
    ensures Chosen(vs, target).Some? && IsSubset(Chosen(vs, target).value, |Window(vs)|)
    ensures AtLeastAsGood(Window(vs), Chosen(vs, target).value, other)
  {
    hide Chosen, Window, Sum, AtLeastAsGood;
    WindowOptimal(vs, target, other);
    BestIsLeast(Window(vs), target, Chosen(vs, target).value, other);
  }

  lemma {:induction false} TopPrefixDominates(vs: seq<nat>, idxs: seq<nat>)
    requires NonIncreasing(vs) && IsSubset(idxs, |vs|)
    ensures |idxs| <= |vs| && Sum(vs, idxs) <= Total(vs[..|idxs|])
  {
    if idxs != [] {
      var m := |idxs| - 1;
      TopPrefixDominates(vs, idxs[..m]);
      IndexAtLeastPosition(idxs, m);
      assert vs[..m + 1][..m] == vs[..m];
    }
  }

  lemma {:induction false} IndexAtLeastPosition(idxs: seq<nat>, k: nat)
    requires k < |idxs| && forall i, j :: 0 <= i < j < |idxs| ==> idxs[i] < idxs[j]
    ensures idxs[k] >= k
  {
    if k != 0 {
      IndexAtLeastPosition(idxs, k - 1);
    }
  }

  /**
   When the window falls short, the fallback takes a prefix of the ordered coins, and no covering
   subset of all the coins has fewer members.
   */
  lemma FallbackMinimal(vs: seq<nat>, target: int, other: seq<nat>)
    requires NonIncreasing(vs) && Covers(vs, target, other)
    requires forall idxs :: !Covers(Window(vs), target, idxs)
    ensures Chosen(vs, target).Some?
    ensures var idxs := Chosen(vs, target).value; idxs == Upto(|idxs|) && |idxs| <= |other|
  {
    TopPrefixDominates(vs, other);
    var j := ShortestPrefixExists(vs, target, |other|);
    ChosenIsPrefix(vs, target, j);
  }

  // The same for coin lists

  ghost predicate Payable(amount: int, fee: int) { amount > 0 && -MAX_SAFE_INTEGER <= amount + fee <= MAX_SAFE_INTEGER }

  /** The window is enough: the selection is its least covering subset. */
  lemma WindowSelected(coins: seq<Coin>, amount: int, fee: int, idxs: seq<nat>) returns (best: seq<nat>)
    requires Payable(amount, fee) && Covers(Window(Values(SortCoins(coins))), amount + fee, idxs)
    ensures IsBest(Window(Values(SortCoins(coins))), amount + fee, best) && IsSubset(best, |SortCoins(coins)|)
    ensures SelectSpec(coins, amount, fee) == Selected(Pick(SortCoins(coins), best))
  {
    var vs := Values(SortCoins(coins));
    hide SortCoins, Window, IsBest, Covers;
    WindowOptimal(vs, amount + fee, idxs);
    best := Chosen(vs, amount + fee).value;
    ChosenIsSubset(vs, amount + fee);
  }

  /** The same without naming the order: least change, then fewest coins, then the smaller index. */
  lemma SelectionAtLeastAsGood(coins: seq<Coin>, amount: int, fee: int, idxs: seq<nat>) returns (best: seq<nat>)
    requires Payable(amount, fee) && Covers(Window(Values(SortCoins(coins))), amount + fee, idxs)
    ensures Covers(Window(Values(SortCoins(coins))), amount + fee, best) && IsSubset(best, |SortCoins(coins)|)
    ensures AtLeastAsGood(Window(Values(SortCoins(coins))), best, idxs)
    ensures SelectSpec(coins, amount, fee) == Selected(Pick(SortCoins(coins), best))
  {
    hide SortCoins, SelectSpec, AtLeastAsGood;
    best := WindowSelected(coins, amount, fee, idxs);
    BestIsLeast(Window(Values(SortCoins(coins))), amount + fee, best, idxs);
  }

  /** The coins that the search looks at. */
  function Largest(coins: seq<Coin>): seq<Coin>
  {
    if |SortCoins(coins)| <= 12 then SortCoins(coins) else SortCoins(coins)[..12]
  }

  lemma SubWithout<T>(e: T, x: multiset<T>, y: multiset<T>)
    ensures multiset{e} + x <= y + multiset{e} ==> x <= y
    ensures x <= y + multiset{e} && e !in x ==> x <= y
  {
    if multiset{e} + x <= y + multiset{e} {
      assert forall t :: x[t] == (multiset{e} + x)[t] - multiset{e}[t] && y[t] == (y + multiset{e})[t] - multiset{e}[t];
    }
    if x <= y + multiset{e} && e !in x {
      assert forall t :: t != e ==> (y + multiset{e})[t] == y[t];
    }
  }

  lemma PrefixPicked(ordered: seq<Coin>, target: int, n: nat)
    requires n <= |ordered| && Chosen(Values(ordered), target) == Some(Upto(n))
    ensures OrderedSpec(ordered, target) == Selected(ordered[..n])
  {
    hide Chosen;
    assert Pick(ordered, Upto(n)) == ordered[..n];
  }

  lemma SubBagFront<T>(s: seq<T>, other: seq<T>)
    requires |s| > 0 && multiset(other) <= multiset(s)
    ensures s[|s| - 1] !in other ==> multiset(other) <= multiset(s[..|s| - 1])
    ensures forall k :: 0 <= k < |other| && other[k] == s[|s| - 1] ==>
              multiset(Drop(other, k)) <= multiset(s[..|s| - 1])
  {
    var front, last := s[..|s| - 1], s[|s| - 1];
    assert s == front + [last];
    assert multiset(s) == multiset(front) + multiset{last};
    SubWithout(last, multiset(other), multiset(front));
    forall k | 0 <= k < |other| && other[k] == last
      ensures multiset(Drop(other, k)) <= multiset(front)
    {
      DropRemoves(other, k);
      SubWithout(last, multiset(Drop(other, k)), multiset(front));
    }
  }

  /** Coins taken from a list are those at some indices of it, as far as number and worth go. */
  lemma {:induction false} IndicesOf(all: seq<Coin>, other: seq<Coin>) returns (idxs: seq<nat>)
    requires multiset(other) <= multiset(all)
    ensures IsSubset(idxs, |all|) && |Values(all)| == |all| && |idxs| == |other|
    ensures Sum(Values(all), idxs) == Total(Values(other))
  {
    if |all| == 0 {
      NothingFromNothing(all, other);
      idxs := [];
    } else {
      hide Drop, Total, Sum, IsSubset, Values;
      var n := |all| - 1;
      SubBagFront(all, other);
      if k: nat :| k < |other| && other[k] == all[n] {
        var rest := IndicesOf(all[..n], Drop(other, k));
        WithLast(all, other, k, rest);
        idxs := rest + [n];
      } else {
        idxs := IndicesOf(all[..n], other);
        InFront(all, idxs);
      }
    }
  }

  lemma InFront(all: seq<Coin>, idxs: seq<nat>)
    requires |all| > 0 && |Values(all[..|all| - 1])| == |all| - 1 && IsSubset(idxs, |all| - 1)
    ensures |Values(all)| == |all| && IsSubset(idxs, |all|)
    ensures Sum(Values(all), idxs) == Sum(Values(all[..|all| - 1]), idxs)
  {
    assert Values(all[..|all| - 1]) == Values(all)[..|all| - 1];
    SumInWindow(Values(all), |all| - 1, idxs);
  }

  lemma WithLast(all: seq<Coin>, other: seq<Coin>, k: nat, rest: seq<nat>)
    requires |all| > 0 && k < |other| && other[k] == all[|all| - 1]
    requires |Values(all[..|all| - 1])| == |all| - 1 && IsSubset(rest, |all| - 1) && |rest| == |Drop(other, k)|
    requires Sum(Values(all[..|all| - 1]), rest) == Total(Values(Drop(other, k)))
    ensures |Values(all)| == |all| && IsSubset(rest + [|all| - 1], |all|) && |rest| + 1 == |other|
    ensures Sum(Values(all), rest + [|all| - 1]) == Total(Values(other))
  {
    hide Drop, Total, Sum;
    InFront(all, rest);
    DropShorter(other, k);
    ValuesDrop(other, k);
    TotalDrop(Values(other), k);
    SumSnoc(Values(all), rest, |all| - 1);
  }

  /**
   Of all ways to pay with the twelve largest coins the selection leaves the least change, and of those
   that leave as little it uses the fewest coins.
   */
  lemma SelectionLeast(coins: seq<Coin>, amount: int, fee: int, other: seq<Coin>)
    requires Payable(amount, fee) && |other| > 0
    requires multiset(other) <= multiset(Largest(coins)) && Total(Values(other)) >= amount + fee
    ensures var r := SelectSpec(coins, amount, fee);
            && r.Selected? && amount + fee <= Total(Values(r.coins)) <= Total(Values(other))
            && (Total(Values(r.coins)) == Total(Values(other)) ==> |r.coins| <= |other|)
  {
    var ordered := SortCoins(coins);
    var vs := Values(ordered);
    var idxs := IndicesOf(Largest(coins), other);
    assert Window(vs) == Values(Largest(coins));
    hide SortCoins, Sum, Total, Largest;
    var best := SelectionAtLeastAsGood(coins, amount, fee, idxs);
    hide SelectSpec;
    PickTotal(ordered, best);
    WindowSum(vs, best);
  }

  lemma WindowSum(vs: seq<nat>, idxs: seq<nat>)
    requires IsSubset(idxs, |Window(vs)|)
    ensures IsSubset(idxs, |vs|) && Sum(Window(vs), idxs) == Sum(vs, idxs)
  {
    if |vs| > EXHAUSTIVE_CAP {
      SumInWindow(vs, EXHAUSTIVE_CAP, idxs);
    }
  }

  lemma ValuesPrefix(coins: seq<Coin>, n: nat, m: nat)
    requires m <= n <= |coins|
    ensures Values(coins[..n])[..m] == Values(coins)[..m]
    ensures NonIncreasing(Values(coins)) ==> NonIncreasing(Values(coins[..n]))
  {
    assert Values(coins[..n]) == Values(coins)[..n];
  }

  /** No coins taken from the list are worth more than the same number of largest ones. */
  lemma {:induction false} LargestAreWorthMost(ordered: seq<Coin>, other: seq<Coin>)
    requires NonIncreasing(Values(ordered)) && multiset(other) <= multiset(ordered)
    ensures |other| <= |ordered| && Total(Values(other)) <= Total(Values(ordered)[..|other|])
  {
    hide Total, NonIncreasing, Drop, Values;
    if |ordered| == 0 {
      NothingFromNothing(ordered, other);
    } else {
      var n, m := |ordered| - 1, |other|;
      SubBagFront(ordered, other);
      ValuesPrefix(ordered, n, 0);
      if k: nat :| k < m && other[k] == ordered[n] {
        LargestAreWorthMost(ordered[..n], Drop(other, k));
        DropShorter(other, k);
        DropWorth(ordered, other, k);
      } else {
        LargestAreWorthMost(ordered[..n], other);
        ValuesPrefix(ordered, n, m);
      }
    }
  }

  lemma NothingFromNothing(ordered: seq<Coin>, other: seq<Coin>)
    requires |ordered| == 0 && multiset(other) <= multiset(ordered)
    ensures |other| == 0 && Total(Values(other)) == Total(Values(ordered)[..0])
  {
    assert |multiset(other)| <= |multiset(ordered)|;
    assert Values(other) == Values(ordered)[..0];
  }

  lemma DropShorter<T>(s: seq<T>, k: nat)
    requires k < |s|
    ensures |Drop(s, k)| == |s| - 1
  {
  }

  lemma LastIsLeast(ordered: seq<Coin>, i: nat, other: seq<Coin>, k: nat)
    requires NonIncreasing(Values(ordered)) && i < |ordered| && k < |other| && other[k] == ordered[|ordered| - 1]
    ensures |Values(ordered)| == |ordered| && |Values(other)| == |other| && Values(ordered)[i] >= Values(other)[k]
  {
    assert Values(other)[k] == Values(ordered)[|ordered| - 1];
  }

  lemma DropWorth(ordered: seq<Coin>, other: seq<Coin>, k: nat)
    requires NonIncreasing(Values(ordered)) && k < |other| <= |ordered| && other[k] == ordered[|ordered| - 1]
    requires Total(Values(Drop(other, k))) <= Total(Values(ordered[..|ordered| - 1])[..|other| - 1])
    ensures Total(Values(other)) <= Total(Values(ordered)[..|other|])
  {
    hide Total, NonIncreasing, Drop, Values;
    var vs, m := Values(ordered), |other|;
    LastIsLeast(ordered, m - 1, other, k);
    ValuesPrefix(ordered, |ordered| - 1, m - 1);
    ValuesDrop(other, k);
    TotalDrop(Values(other), k);
    TotalSnoc(vs, m - 1);
  }

  ghost predicate NoneCovers(vs: seq<nat>, target: int) { forall idxs :: !Covers(vs, target, idxs) }

  /** The window falls short: the selection is the largest coins, and no coins of the list that pay are fewer. */
  lemma FallbackSelected(coins: seq<Coin>, amount: int, fee: int, other: seq<Coin>)
    requires Payable(amount, fee) && amount + fee > 0
    requires multiset(other) <= multiset(coins) && Total(Values(other)) >= amount + fee
    requires NoneCovers(Window(Values(SortCoins(coins))), amount + fee)
    ensures var r := SelectSpec(coins, amount, fee);
            && r.Selected? && |r.coins| <= |other| && |r.coins| <= |SortCoins(coins)|
            && r.coins == SortCoins(coins)[..|r.coins|]
  {
    var ordered, target := SortCoins(coins), amount + fee;
    OrderedValues(coins);
    SortPermutes(coins);
    hide SortCoins, NonIncreasing, OrderedSpec;
    LargestAreWorthMost(ordered, other);
    assert |other| == 0 ==> Total(Values(other)) == 0;
    var j := ShortestPrefixExists(Values(ordered), target, |other|);
    ChosenIsPrefix(Values(ordered), target, j);
    PrefixPicked(ordered, target, j);
  }

  /** No selected coin can be spared. */
  lemma EveryCoinNecessary(vs: seq<nat>, target: int, k: nat)
    requires NonIncreasing(vs) && target > 0 && Chosen(vs, target).Some?
    requires k < |Chosen(vs, target).value|
    ensures var idxs := Chosen(vs, target).value;
            IsSubset(idxs, |vs|) && IsSubset(Drop(idxs, k), |vs|) && Sum(vs, Drop(idxs, k)) < target
  {
    var idxs := Chosen(vs, target).value;
    ChosenCovers(vs, target);
    SumWithout(vs, idxs, k);
    if b :| IsBest(Window(vs), target, b) {
      ChosenIsBest(vs, target, b);
      NecessaryInWindow(Window(vs), target, idxs, k);
      SumInWindow(vs, |Window(vs)|, Drop(idxs, k));
    } else {
      var n: nat :| IsShortestPrefix(vs, target, n) && idxs == Upto(n);
      NecessaryInPrefix(vs, target, n, k);
    }
  }

  lemma NecessaryInWindow(vs: seq<nat>, target: int, idxs: seq<nat>, k: nat)
    requires IsBest(vs, target, idxs) && target > 0 && k < |idxs|
    ensures IsSubset(Drop(idxs, k), |vs|) && Sum(vs, Drop(idxs, k)) < target
  {
    SumWithout(vs, idxs, k);
    var fewer := Drop(idxs, k);
    assert Covers(vs, target, fewer) ==> Precedes(Scored(vs, target, idxs), Scored(vs, target, fewer));
    assert fewer == [] ==> Sum(vs, fewer) == 0;
  }

  lemma NecessaryInPrefix(vs: seq<nat>, target: int, n: nat, k: nat)
    requires NonIncreasing(vs) && target > 0 && IsShortestPrefix(vs, target, n) && k < n
    ensures IsSubset(Drop(Upto(n), k), |vs|) && Sum(vs, Drop(Upto(n), k)) < target
  {
    hide Total, Sum, IsSubset, Upto, Drop, NonIncreasing;
    UptoAt(vs, n, k);
    assert n > 1 ==> !PrefixPays(vs, target, n - 1);
    SumUpto(vs, n);
    SumWithout(vs, Upto(n), k);
    TotalSnoc(vs, n - 1);
  }

  lemma UptoAt(vs: seq<nat>, n: nat, k: nat)
    requires NonIncreasing(vs) && k < n <= |vs|
    ensures |Upto(n)| == n && Upto(n)[k] == k && vs[k] >= vs[n - 1] && Total(vs[..0]) == 0
  {
  }

  lemma TotalSnoc(vs: seq<nat>, k: nat)
    requires k < |vs|
    ensures Total(vs[..k + 1]) == Total(vs[..k]) + vs[k]
  {
    assert vs[..k + 1][..k] == vs[..k];
  }

  lemma ChangeBelowChosen(vs: seq<nat>, target: int, k: nat)
    requires NonIncreasing(vs) && target > 0 && Chosen(vs, target).Some?
    requires k < |Chosen(vs, target).value|
    ensures var idxs := Chosen(vs, target).value;
            IsSubset(idxs, |vs|) && Sum(vs, idxs) - target < vs[idxs[k]]
  {
    EveryCoinNecessary(vs, target, k);
    SumWithout(vs, Chosen(vs, target).value, k);
  }

  lemma ChangeBelowOrdered(ordered: seq<Coin>, target: int)
    requires NonIncreasing(Values(ordered)) && target > 0 && OrderedSpec(ordered, target).Selected?
    ensures var ins := OrderedSpec(ordered, target).coins;
            && Total(Values(ins)) >= target
            && forall c :: c in ins ==> Total(Values(ins)) - target < c.value
  {
    var vs := Values(ordered);
    var idxs := Chosen(vs, target).value;
    ChosenCovers(vs, target);
    PickTotal(ordered, idxs);
    forall k: nat | k < |idxs| ensures Sum(vs, idxs) - target < vs[idxs[k]] {
      ChangeBelowChosen(vs, target, k);
    }
  }

  /** Hence the change is smaller than every selected coin. */
  lemma ChangeBelowEveryInput(coins: seq<Coin>, amount: int, fee: int)
    requires SelectSpec(coins, amount, fee).Selected? && amount + fee > 0
    ensures var ins := SelectSpec(coins, amount, fee).coins;
            && Total(Values(ins)) >= amount + fee
            && forall c :: c in ins ==> Total(Values(ins)) - (amount + fee) < c.value
  {
    OrderedValues(coins);
    ChangeBelowOrdered(SortCoins(coins), amount + fee);
  }

  // ---------------------------------------------------------------------------
  // Order independence
  // ---------------------------------------------------------------------------

  /** The same error, or selected coins that the comparator cannot tell apart, in the same order. */
  ghost predicate SameOutcome(x: Selection, y: Selection)
  {
    if x.Selected? then y.Selected? && Keys(x.coins) == Keys(y.coins) else x == y
  }

  lemma SameKeysSameOutcome(oa: seq<Coin>, ob: seq<Coin>, target: int)
    requires Keys(oa) == Keys(ob)
    ensures SameOutcome(OrderedSpec(oa, target), OrderedSpec(ob, target))
  {
    SameKeysSameValues(oa, ob);
    var x, y := OrderedSpec(oa, target), OrderedSpec(ob, target);
    if x.Selected? {
      var idxs := Chosen(Values(oa), target).value;
      forall k | 0 <= k < |idxs| ensures KeyOf(x.coins[k]) == KeyOf(y.coins[k]) {
        assert Keys(oa)[idxs[k]] == Keys(ob)[idxs[k]];
      }
    }
  }

  /**
   Permuting the coin list never changes the outcome as far as the comparator can tell: the error
   is the same, and the selected (value, id, index) keys are the same in the same order.
   */
  lemma OrderIndependentKeys(a: seq<Coin>, b: seq<Coin>, amount: int, fee: int)
    requires multiset(a) == multiset(b)
    ensures SameOutcome(SelectSpec(a, amount, fee), SelectSpec(b, amount, fee))
  {
    SortedKeysAgree(a, b);
    OutcomeFromKeys(a, b, amount, fee);
  }

  lemma OutcomeFromKeys(a: seq<Coin>, b: seq<Coin>, amount: int, fee: int)
    requires Keys(SortCoins(a)) == Keys(SortCoins(b))
    ensures SameOutcome(SelectSpec(a, amount, fee), SelectSpec(b, amount, fee))
  {
    hide OrderedSpec, SortCoins, Keys;
    SameKeysSameOutcome(SortCoins(a), SortCoins(b), amount + fee);
  }

  lemma SortedKeysAgree(a: seq<Coin>, b: seq<Coin>)
    requires multiset(a) == multiset(b)
    ensures Keys(SortCoins(a)) == Keys(SortCoins(b))
  {
    var oa, ob := SortCoins(a), SortCoins(b);
    SortPermutes(a);
    SortPermutes(b);
    SortOrders(a);
    SortOrders(b);
    KeysOfPermutation(oa, ob);
    OrderedUnique(Keys(oa), Keys(ob));
  }

  lemma SameKeysSameValues(a: seq<Coin>, b: seq<Coin>)
    requires Keys(a) == Keys(b)
    ensures Values(a) == Values(b)
  {
    assert |a| == |b|;
    forall i | 0 <= i < |a| ensures a[i].value == b[i].value {
      assert Keys(a)[i] == Keys(b)[i];
    }
  }

  /** No two coins that the comparator cannot tell apart: same value, normalised transaction id and index. */
  ghost predicate DistinctKeys(coins: seq<Coin>)
  {
    forall c, d :: c in coins && d in coins && KeyOf(c) == KeyOf(d) ==> c == d
  }

  lemma SelectedComeFromInput(coins: seq<Coin>, amount: int, fee: int, c: Coin)
    requires SelectSpec(coins, amount, fee).Selected? && c in SelectSpec(coins, amount, fee).coins
    ensures c in coins
  {
    var ordered := SortCoins(coins);
    SortPermutes(coins);
    assert c in multiset(ordered);
  }

  /** With distinct keys the very same coins come out for every permutation. */
  lemma OrderIndependent(a: seq<Coin>, b: seq<Coin>, amount: int, fee: int)
    requires multiset(a) == multiset(b) && DistinctKeys(a)
    ensures SelectSpec(a, amount, fee) == SelectSpec(b, amount, fee)
  {
    OrderIndependentKeys(a, b, amount, fee);
    var x, y := SelectSpec(a, amount, fee), SelectSpec(b, amount, fee);
    if x.Selected? {
      assert |Keys(x.coins)| == |Keys(y.coins)|;
      forall k | 0 <= k < |x.coins| ensures x.coins[k] == y.coins[k] {
        SelectedComeFromInput(a, amount, fee, x.coins[k]);
        SelectedComeFromInput(b, amount, fee, y.coins[k]);
        assert y.coins[k] in multiset(b);
        assert Keys(x.coins)[k] == Keys(y.coins)[k];
      }
    }
  }

  // The condition is needed

  lemma {:induction false} SortFixed(s: seq<Coin>)
    requires Ordered(Keys(s))
    ensures SortCoins(s) == s
  {
    if s != [] {
      assert Keys(s)[1..] == Keys(s[1..]);
      SortFixed(s[1..]);
      assert |s| > 1 ==> KeyLe(Keys(s)[0], Keys(s)[1]);
    }
  }

  lemma {:induction false} TotalGrows(vs: seq<nat>, j: nat, k: nat)
    requires NonIncreasing(vs) && j <= k < |vs| && vs[k] > 0
    ensures Total(vs[..j]) < Total(vs[..k + 1])
  {
    TotalSnoc(vs, k);
    if j < k {
      TotalGrows(vs, j, k - 1);
    }
  }

  lemma {:induction false} NotLexLess(a: seq<nat>, b: seq<nat>)
    requires |a| == |b| && forall i :: 0 <= i < |a| ==> a[i] >= b[i]
    ensures !LexLess(a, b)
  {
    if |a| > 0 {
      NotLexLess(a[1..], b[1..]);
    }
  }

  lemma UptoPrecedes(other: seq<nat>, n: nat)
    requires IsSubset(other, n) && other != Upto(|other|)
    ensures LexLess(Upto(|other|), other)
  {
    forall i: nat | i < |other|
      ensures other[i] >= i
    {
      IndexAtLeastPosition(other, i);
    }
    NotLexLess(other, Upto(|other|));
    LexLessOrder(other, Upto(|other|), other);
  }

  /** What exactly pays for the `k + 1` largest values is those values. */
  lemma PrefixIsBest(vs: seq<nat>, k: nat)
    requires NonIncreasing(vs) && k < |vs| && vs[k] > 0
    ensures IsBest(vs, Total(vs[..k + 1]), Upto(k + 1))
  {
    var target, mine := Total(vs[..k + 1]), Upto(k + 1);
    SumUpto(vs, k + 1);
    forall other | Covers(vs, target, other) && other != mine
      ensures Precedes(Scored(vs, target, mine), Scored(vs, target, other))
    {
      TopPrefixDominates(vs, other);
      if |other| <= k {
        TotalGrows(vs, |other|, k);
      } else if |other| == k + 1 {
        UptoPrecedes(other, |vs|);
      }
    }
  }

  lemma PrefixChosen(vs: seq<nat>, k: nat)
    requires NonIncreasing(vs) && k < |vs| && vs[k] > 0
    ensures Chosen(vs, Total(vs[..k + 1])) == Some(Upto(k + 1))
  {
    var w, target := Window(vs), Total(vs[..k + 1]);
    if k < |w| {
      assert w[..k + 1] == vs[..k + 1];
      PrefixIsBest(w, k);
      ChosenIsBest(vs, target, Upto(k + 1));
    } else {
      forall idxs
        ensures !Covers(w, target, idxs)
      {
        if IsSubset(idxs, |w|) {
          TopPrefixDominates(w, idxs);
          assert w[..|idxs|] == vs[..|idxs|];
          TotalGrows(vs, |idxs|, k);
        }
      }
      forall j | 1 <= j < k + 1
        ensures !PrefixPays(vs, target, j)
      {
        TotalGrows(vs, j, k);
      }
      ChosenIsPrefix(vs, target, k + 1);
    }
  }

  lemma PrefixSelected(ordered: seq<Coin>, k: nat, amount: int, fee: int)
    requires Ordered(Keys(ordered)) && k < |ordered| && ordered[k].value > 0
    requires amount > 0 && amount + fee == Total(Values(ordered)[..k + 1]) <= MAX_SAFE_INTEGER
    ensures SelectSpec(ordered, amount, fee) == Selected(ordered[..k + 1])
  {
    SortFixed(ordered);
    OrderedValues(ordered);
    hide SortCoins, Chosen, NonIncreasing, OrderedSpec, Total;
    PrefixChosen(Values(ordered), k);
    PrefixPicked(ordered, amount + fee, k + 1);
  }

  /** Two coins that the comparator cannot tell apart stand side by side somewhere in the sorted list. */
  lemma {:induction false} AdjacentAliases(s: seq<Coin>, i: nat, j: nat) returns (k: nat)
    requires Ordered(Keys(s)) && i < j < |s| && KeyOf(s[i]) == KeyOf(s[j]) && s[i] != s[j]
    ensures k + 1 < |s| && KeyOf(s[k]) == KeyOf(s[k + 1]) == KeyOf(s[i]) && s[k] != s[k + 1]
    decreases j - i
  {
    var ks := Keys(s);
    assert KeyLe(ks[i], ks[i + 1]) && (i + 1 < j ==> KeyLe(ks[i + 1], ks[j]));
    KeyOrder(ks[i], ks[i + 1], ks[i]);
    if s[i] != s[i + 1] {
      k := i;
    } else {
      k := AdjacentAliases(s, i + 1, j);
    }
  }

  function Swapped(s: seq<Coin>, k: nat): seq<Coin>
    requires k + 1 < |s|
  {
    s[k := s[k + 1]][k + 1 := s[k]]
  }

  lemma SwapAliases(s: seq<Coin>, k: nat)
    requires k + 1 < |s| && KeyOf(s[k]) == KeyOf(s[k + 1])
    ensures multiset(Swapped(s, k)) == multiset(s) && Keys(Swapped(s, k)) == Keys(s)
    ensures Values(Swapped(s, k)) == Values(s)
  {
    hide KeyOf;
    var t := Swapped(s, k);
    assert s == s[..k] + ([s[k], s[k + 1]] + s[k + 2..]);
    assert t == s[..k] + ([s[k + 1], s[k]] + s[k + 2..]);
    assert Keys(t) == Keys(s);
    SameKeysSameValues(s, t);
  }

  ghost predicate OrderFree(coins: seq<Coin>)
  {
    forall a, b, amount, fee :: multiset(a) == multiset(coins) && multiset(b) == multiset(coins) ==>
      SelectSpec(a, amount, fee) == SelectSpec(b, amount, fee)
  }

  /** A target that pays for the coins up to the first of two aliases selects whichever came first. */
  lemma AliasesBreakOrder(coins: seq<Coin>, c: Coin, d: Coin)
    requires c in coins && d in coins && KeyOf(c) == KeyOf(d) && c != d
    requires c.value > 0 && Total(Values(coins)) <= MAX_SAFE_INTEGER
    ensures !OrderFree(coins)
  {
    var s := SortCoins(coins);
    SortOrders(coins);
    SortPermutes(coins);
    assert c in multiset(s) && d in multiset(s);
    var i: nat, j: nat :| i < |s| && j < |s| && s[i] == c && s[j] == d;
    var k := if i < j then i else j;
    k := AdjacentAliases(s, k, if i < j then j else i);
    BreakAt(coins, s, k);
  }

  lemma BreakAt(coins: seq<Coin>, s: seq<Coin>, k: nat)
    requires multiset(s) == multiset(coins) && Ordered(Keys(s)) && Total(Values(coins)) <= MAX_SAFE_INTEGER
    requires k + 1 < |s| && KeyOf(s[k]) == KeyOf(s[k + 1]) && s[k] != s[k + 1] && s[k].value > 0
    ensures !OrderFree(coins)
  {
    var t, amount := Swapped(s, k), Total(Values(s)[..k + 1]);
    SwapAliases(s, k);
    TotalOfPermutation(coins, s);
    SortFixed(s);
    OrderedValues(s);
    TotalGrows(Values(s), 0, k);
    TotalPrefix(Values(s), k + 1);
    PrefixSelected(s, k, amount, 0);
    PrefixSelected(t, k, amount, 0);
    assert s[..k + 1][k] != t[..k + 1][k];
  }

  lemma {:induction false} TotalPrefix(vs: seq<nat>, k: nat)
    requires k <= |vs|
    ensures Total(vs[..k]) <= Total(vs)
    decreases |vs| - k
  {
    if k == |vs| {
      assert vs[..k] == vs;
    } else {
      TotalPrefix(vs, k + 1);
      TotalSnoc(vs, k);
    }
  }

  /** For coins of positive value: every permutation selects the same coins if and only if no two coins share a key. */
  lemma OrderFreeIff(coins: seq<Coin>)
    requires (forall c :: c in coins ==> c.value > 0) && Total(Values(coins)) <= MAX_SAFE_INTEGER
    ensures OrderFree(coins) <==> DistinctKeys(coins)
  {
    if DistinctKeys(coins) {
      forall a, b, amount, fee | multiset(a) == multiset(coins) && multiset(b) == multiset(coins)
        ensures SelectSpec(a, amount, fee) == SelectSpec(b, amount, fee)
      {
        assert forall c :: c in a ==> c in multiset(coins);
        OrderIndependent(a, b, amount, fee);
      }
    } else {
      var c, d :| c in coins && d in coins && KeyOf(c) == KeyOf(d) && c != d;
      AliasesBreakOrder(coins, c, d);
    }
  }

  /** Two spellings of one transaction id share a key. */
  lemma OrderMattersForAliases()
    ensures var p, q := Coin("AB", 0, 5), Coin("0xab", 0, 5);
            p != q && KeyOf(p) == KeyOf(q) && !OrderFree([p, q])
  {
    var p, q := Coin("AB", 0, 5), Coin("0xab", 0, 5);
    AliasKeys();
    PairTotal(p, q);
    hide CoinKey, Total, OrderFree;
    AliasesBreakOrder([p, q], p, q);
  }

  lemma PairTotal(p: Coin, q: Coin)
    ensures Total(Values([p, q])) == p.value + q.value
  {
    var vs := Values([p, q]);
    assert vs[..1] == [p.value] && [p.value][..0] == [];
    assert Total([p.value]) == p.value;
  }

  lemma AliasKeys()
    ensures CoinKey("AB") == "ab" && CoinKey("0xab") == "ab"
  {
    UpperKey();
    PrefixedKey();
  }

  lemma UpperKey()
    ensures CoinKey("AB") == "ab"
  {
    assert TrimLeft("AB") == "AB" && TrimRight("AB") == "AB";
    assert "AB"[1..] == "B" && "B"[1..] == "";
    assert Lower("AB") == "ab" && "ab"[0] == 'a';
  }

  lemma PrefixedKey()
    ensures CoinKey("0xab") == "ab"
  {
    assert TrimLeft("0xab") == "0xab" && TrimRight("0xab") == "0xab";
    assert "0xab"[1..] == "xab" && "xab"[1..] == "ab" && "ab"[1..] == "b" && "b"[1..] == "";
    assert Lower("0xab") == "0xab";
  }

  // ---------------------------------------------------------------------------
  // Building the transfer
  // ---------------------------------------------------------------------------

  datatype Output = Output(value: int, address: Address)

  datatype Transfer =
    | Built(inputs: seq<Coin>, outputs: seq<Output>)
    | NeedNotPositive
    | SelectFailed(error: SelectError)

  function OutputTotal(outs: seq<Output>): int
  {
    if outs == [] then 0 else outs[0].value + OutputTotal(outs[1..])
  }

  /**
   Selects inputs, pays `amount` to `to` and returns the rest to `changeTo`. The inputs pay exactly
   for the outputs and the fee; a change output exists only when something is left, and what is left
   is less than any single input.
   */
  method BuildTransfer(utxos: seq<Coin>, amount: int, fee: int, to: Address, changeTo: Address) returns (t: Transfer)
    ensures t.NeedNotPositive? <==> amount + fee <= 0
    ensures t.SelectFailed? ==> SelectSpec(utxos, amount, fee) == Rejected(t.error)
    ensures t.Built? ==>
      && SelectSpec(utxos, amount, fee) == Selected(t.inputs)
      && Total(Values(t.inputs)) == OutputTotal(t.outputs) + fee
      && amount > 0 && t.outputs != [] && t.outputs[0] == Output(amount, to)
      && (|t.outputs| == 1 || IsChange(t.outputs, t.inputs, changeTo))
  {
    var need := amount + fee;
    if need <= 0 { return NeedNotPositive; }
    var selection := SelectTltCoins(utxos, amount, fee);
    if selection.Rejected? { return SelectFailed(selection.error); }
    ChangeBelowEveryInput(utxos, amount, fee);
    var totalIn := SumInputs(selection.coins);
    var outputs := MakeOutputs(amount, to, totalIn - need, changeTo);
    return Built(selection.coins, outputs);
  }

  /** The second output is positive change, smaller than every input. */
  predicate IsChange(outs: seq<Output>, ins: seq<Coin>, changeTo: Address)
  {
    && |outs| == 2 && outs[1].address == changeTo && outs[1].value > 0
    && forall c :: c in ins ==> outs[1].value < c.value
  }

  method SumInputs(coins: seq<Coin>) returns (total: nat)
    ensures total == Total(Values(coins))
  {
    total := 0;
    for i := 0 to |coins|
      invariant total == Total(Values(coins)[..i])
    {
      TotalSnoc(Values(coins), i);
      total := total + coins[i].value;
    }
    assert Values(coins)[..|coins|] == Values(coins);
  }

  method MakeOutputs(amount: int, to: Address, change: int, changeTo: Address) returns (outs: seq<Output>)
    requires change >= 0
    ensures outs != [] && outs[0] == Output(amount, to) && OutputTotal(outs) == amount + change
    ensures if change > 0 then outs[1..] == [Output(change, changeTo)] else |outs| == 1
  {
    outs := [Output(amount, to)];
    assert outs[1..] == [];
    if change > 0 {
      var rest := [Output(change, changeTo)];
      outs := outs + rest;
      assert rest[1..] == [];
      assert OutputTotal(rest) == change && outs[1..] == rest;
    }
  }
}

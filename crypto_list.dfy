/**
 The coin list: it sorts a copy of the incoming list by the key and the
 direction held in the store, then shows each coin's 24h change as up and
 green or as down and red.

 A coin's numeric fields arrive as decimal strings and are parsed with
 Number(...) before they are compared; the model takes them already parsed,
 the rank as an integer and the price and the change as exact reals.
 */
module CryptoList {
  import opened Store

  /** The fields of a coin that the list reads. */
  datatype CryptoCurrency = CryptoCurrency(
    id: string,
    name: string,
    symbol: string,
    rank: int,
    priceUsd: real,
    changePercent24Hr: real)

  /** The number a coin is sorted on for each choice of key. */
  function SortKey(sortBy: SortBy, c: CryptoCurrency): real
  {
    match sortBy
    case Rank => c.rank as real
    case Price => c.priceUsd
    case Change => c.changePercent24Hr
  }

  /**
   The comparator handed to the sort: negative when `a` goes first, positive
   when `b` goes first, zero when the two are equal on the chosen key.
   */
  function Compare(sortBy: SortBy, sortOrder: SortOrder, a: CryptoCurrency, b: CryptoCurrency): real
  {
    var comparison :=
      match sortBy
      case Rank => (a.rank - b.rank) as real
      case Price => a.priceUsd - b.priceUsd
      case Change => a.changePercent24Hr - b.changePercent24Hr;
    if sortOrder == Asc then comparison else -comparison
  }

  /** `s` is in the order the comparator asks for: no pair is out of order. */
  ghost predicate Sorted(sortBy: SortBy, sortOrder: SortOrder, s: seq<CryptoCurrency>)
  {
    forall i, j :: 0 <= i < j < |s| ==> Compare(sortBy, sortOrder, s[i], s[j]) <= 0.0
  }

  /** The items of `s` whose chosen key equals `k`, in the order they occur in `s`. */
  function WithKey(sortBy: SortBy, s: seq<CryptoCurrency>, k: real): seq<CryptoCurrency>
  {
    if s == [] then []
    else (if SortKey(sortBy, s[0]) == k then [s[0]] else []) + WithKey(sortBy, s[1..], k)
  }

  /**
   `t` holds each group of equal-key items of `s` unchanged: the same items,
   in the same relative order. This is what a stable sort keeps.
   */
  ghost predicate SameKeyGroups(sortBy: SortBy, s: seq<CryptoCurrency>, t: seq<CryptoCurrency>)
  {
    forall k :: WithKey(sortBy, s, k) == WithKey(sortBy, t, k)
  }

  /** `t` is a stable rearrangement of `s`: the same items, each equal-key group in the same order. */
  ghost predicate Rearranged(sortBy: SortBy, s: seq<CryptoCurrency>, t: seq<CryptoCurrency>)
  {
    multiset(s) == multiset(t) && SameKeyGroups(sortBy, s, t)
  }

  /** A stable rearrangement of a stable rearrangement is one. */
  lemma RearrangedTransitive(sortBy: SortBy, s: seq<CryptoCurrency>, t: seq<CryptoCurrency>, u: seq<CryptoCurrency>)
    requires Rearranged(sortBy, s, t) && Rearranged(sortBy, t, u)
    ensures Rearranged(sortBy, s, u)
  {
  }

  /**
   The comparator subtracts exactly the selected key (rank, price or change),
   and the descending comparator is the negation of the ascending one.
   */
  lemma CompareIsKeyDifference(sortBy: SortBy, a: CryptoCurrency, b: CryptoCurrency)
    ensures Compare(sortBy, Asc, a, b) == SortKey(sortBy, a) - SortKey(sortBy, b)
    ensures Compare(sortBy, Desc, a, b) == -Compare(sortBy, Asc, a, b)
    ensures sortBy == Rank ==> SortKey(sortBy, a) == a.rank as real
    ensures sortBy == Price ==> SortKey(sortBy, a) == a.priceUsd
    ensures sortBy == Change ==> SortKey(sortBy, a) == a.changePercent24Hr
  {
  }

  /** The comparator reports two items as equal exactly when their keys are equal. */
  lemma CompareZeroIffSameKey(sortBy: SortBy, sortOrder: SortOrder, a: CryptoCurrency, b: CryptoCurrency)
    ensures Compare(sortBy, sortOrder, a, b) == 0.0 <==> SortKey(sortBy, a) == SortKey(sortBy, b)
    ensures Compare(sortBy, sortOrder, b, a) == -Compare(sortBy, sortOrder, a, b)
  {
  }

  /** Comparisons add up along a chain of three items. */
  lemma CompareChains(sortBy: SortBy, sortOrder: SortOrder, a: CryptoCurrency, b: CryptoCurrency, c: CryptoCurrency)
    ensures Compare(sortBy, sortOrder, a, c) == Compare(sortBy, sortOrder, a, b) + Compare(sortBy, sortOrder, b, c)
  {
  }

  /** Ascending order is non-decreasing in the chosen key. */
  lemma SortedAscIsNonDecreasing(sortBy: SortBy, s: seq<CryptoCurrency>)
    ensures Sorted(sortBy, Asc, s)
        <==> forall i, j :: 0 <= i < j < |s| ==> SortKey(sortBy, s[i]) <= SortKey(sortBy, s[j])
  {
  }

  /** Descending order is non-increasing in the chosen key. */
  lemma SortedDescIsNonIncreasing(sortBy: SortBy, s: seq<CryptoCurrency>)
    ensures Sorted(sortBy, Desc, s)
        <==> forall i, j :: 0 <= i < j < |s| ==> SortKey(sortBy, s[i]) >= SortKey(sortBy, s[j])
  {
  }

  /** Picking out one key's group distributes over concatenation. */
  lemma {:induction false} WithKeyConcat(sortBy: SortBy, s: seq<CryptoCurrency>, t: seq<CryptoCurrency>, k: real)
    ensures WithKey(sortBy, s + t, k) == WithKey(sortBy, s, k) + WithKey(sortBy, t, k)
  {
    if s == [] {
      assert s + t == t;
    } else {
      var h := if SortKey(sortBy, s[0]) == k then [s[0]] else [];
      assert (s + t)[0] == s[0];
      assert (s + t)[1..] == s[1..] + t;
      assert WithKey(sortBy, s + t, k) == h + WithKey(sortBy, s[1..] + t, k);
      WithKeyConcat(sortBy, s[1..], t, k);
      assert WithKey(sortBy, s, k) == h + WithKey(sortBy, s[1..], k);
    }
  }

  /** The group of key `k` holds exactly the items of `s` whose key is `k`. */
  lemma {:induction false} WithKeyMembers(sortBy: SortBy, s: seq<CryptoCurrency>, k: real, c: CryptoCurrency)
    ensures c in WithKey(sortBy, s, k) <==> c in s && SortKey(sortBy, c) == k
  {
    if s != [] {
      WithKeyMembers(sortBy, s[1..], k, c);
      assert s == [s[0]] + s[1..];
    }
  }

  /** Two items with different keys may trade places without changing any group. */
  lemma SwapPairKeepsGroups(sortBy: SortBy, x: CryptoCurrency, y: CryptoCurrency, k: real)
    requires SortKey(sortBy, x) != SortKey(sortBy, y)
    ensures WithKey(sortBy, [x, y], k) == WithKey(sortBy, [y, x], k)
  {
  }

  /**
   Swapping two neighbours whose keys differ keeps every equal-key group,
   and the items as a multiset.
   */
  lemma SwapNeighboursKeepsGroups(sortBy: SortBy, s: seq<CryptoCurrency>, j: int)
    requires 0 < j < |s|
    requires SortKey(sortBy, s[j - 1]) != SortKey(sortBy, s[j])
    ensures Rearranged(sortBy, s[j - 1 := s[j]][j := s[j - 1]], s)
  {
    var t := s[j - 1 := s[j]][j := s[j - 1]];
    var p, q := s[..j - 1], s[j + 1..];
    var xy, yx := [s[j - 1], s[j]], [s[j], s[j - 1]];
    assert s == p + xy + q;
    assert t == p + yx + q;
    forall k ensures WithKey(sortBy, t, k) == WithKey(sortBy, s, k) {
      WithKeyConcat(sortBy, p + xy, q, k);
      WithKeyConcat(sortBy, p, xy, k);
      WithKeyConcat(sortBy, p + yx, q, k);
      WithKeyConcat(sortBy, p, yx, k);
      SwapPairKeepsGroups(sortBy, s[j - 1], s[j], k);
    }
  }

  /** Two lists in comparator order with the same key groups start with the same item. */
  lemma SortedGroupsSameHead(sortBy: SortBy, sortOrder: SortOrder, r1: seq<CryptoCurrency>, r2: seq<CryptoCurrency>)
    requires Sorted(sortBy, sortOrder, r1) && Sorted(sortBy, sortOrder, r2)
    requires SameKeyGroups(sortBy, r1, r2)
    requires r1 != [] && r2 != []
    ensures r1[0] == r2[0]
  {
    var x, y := r1[0], r2[0];
    var kx, ky := SortKey(sortBy, x), SortKey(sortBy, y);
    WithKeyMembers(sortBy, r2, ky, y);
    WithKeyMembers(sortBy, r1, ky, y);
    WithKeyMembers(sortBy, r1, kx, x);
    WithKeyMembers(sortBy, r2, kx, x);
    // each head is in the other list, so neither may come after the other
    assert Compare(sortBy, sortOrder, x, y) <= 0.0;
    assert Compare(sortBy, sortOrder, y, x) <= 0.0;
    var g1, g2 := WithKey(sortBy, r1, kx), WithKey(sortBy, r2, kx);
    assert g1 == g2;
    assert g1 == [x] + WithKey(sortBy, r1[1..], kx);
    assert g2 == [y] + WithKey(sortBy, r2[1..], kx);
    assert x == g1[0] == g2[0] == y;
  }

  /** Dropping the same head from two lists with the same key groups keeps them the same. */
  lemma SameHeadTailsGroups(sortBy: SortBy, r1: seq<CryptoCurrency>, r2: seq<CryptoCurrency>)
    requires SameKeyGroups(sortBy, r1, r2)
    requires r1 != [] && r2 != [] && r1[0] == r2[0]
    ensures SameKeyGroups(sortBy, r1[1..], r2[1..])
  {
    forall k ensures WithKey(sortBy, r1[1..], k) == WithKey(sortBy, r2[1..], k) {
      var h := if SortKey(sortBy, r1[0]) == k then [r1[0]] else [];
      assert WithKey(sortBy, r1, k) == WithKey(sortBy, r2, k);
      assert WithKey(sortBy, r1, k) == h + WithKey(sortBy, r1[1..], k);
      assert WithKey(sortBy, r2, k) == h + WithKey(sortBy, r2[1..], k);
      assert WithKey(sortBy, r1[1..], k) == WithKey(sortBy, r1, k)[|h|..];
      assert WithKey(sortBy, r2[1..], k) == WithKey(sortBy, r2, k)[|h|..];
    }
  }

  /**
   A stable sort has exactly one possible result: two lists that are both in
   comparator order and both keep the same equal-key groups are equal. So the
   sorted list does not depend on which stable algorithm the runtime uses.
   */
  lemma {:induction false} StableSortIsUnique(sortBy: SortBy, sortOrder: SortOrder, r1: seq<CryptoCurrency>, r2: seq<CryptoCurrency>)
    requires Sorted(sortBy, sortOrder, r1) && Sorted(sortBy, sortOrder, r2)
    requires SameKeyGroups(sortBy, r1, r2)
    ensures r1 == r2
    decreases |r1|
  {
    if r1 != [] {
      assert WithKey(sortBy, r1, SortKey(sortBy, r1[0])) != [];
      assert r2 != [];
    }
    if r2 != [] {
      assert WithKey(sortBy, r2, SortKey(sortBy, r2[0])) != [];
      assert r1 != [];
    }
    if r1 != [] {
      SortedGroupsSameHead(sortBy, sortOrder, r1, r2);
      SameHeadTailsGroups(sortBy, r1, r2);
      StableSortIsUnique(sortBy, sortOrder, r1[1..], r2[1..]);
      assert r1 == [r1[0]] + r1[1..];
      assert r2 == [r2[0]] + r2[1..];
    }
  }

  /**
   While an insertion step runs, the item being inserted sits at `j`: the
   other items of `s[..i + 1]` are in order among themselves, and every item
   after `j` must go after the inserted one.
   */
  ghost predicate Inserting(sortBy: SortBy, sortOrder: SortOrder, s: seq<CryptoCurrency>, i: int, j: int)
    requires 0 <= j <= i < |s|
  {
    && (forall p, q :: 0 <= p < q <= i && p != j && q != j ==> Compare(sortBy, sortOrder, s[p], s[q]) <= 0.0)
    && (forall q :: j < q <= i ==> Compare(sortBy, sortOrder, s[j], s[q]) < 0.0)
  }

  /** Moving the inserted item one place left past an item that must go after it keeps Inserting. */
  lemma InsertingAfterSwap(sortBy: SortBy, sortOrder: SortOrder, s: seq<CryptoCurrency>, i: int, j: int)
    requires 0 < j <= i < |s|
    requires Inserting(sortBy, sortOrder, s, i, j)
    requires Compare(sortBy, sortOrder, s[j - 1], s[j]) > 0.0
    ensures Inserting(sortBy, sortOrder, s[j - 1 := s[j]][j := s[j - 1]], i, j - 1)
  {
  }

  /** When the inserted item may go after its left neighbour, the prefix up to `i` is in order. */
  lemma InsertingDone(sortBy: SortBy, sortOrder: SortOrder, s: seq<CryptoCurrency>, i: int, j: int)
    requires 0 <= j <= i < |s|
    requires Inserting(sortBy, sortOrder, s, i, j)
    requires j > 0 ==> Compare(sortBy, sortOrder, s[j - 1], s[j]) <= 0.0
    ensures forall p, q :: 0 <= p < q <= i ==> Compare(sortBy, sortOrder, s[p], s[q]) <= 0.0
  {
  }

  /**
   Two lists of the same length that agree from `n` on and hold the same
   items hold the same items before `n`.
   */
  lemma SameSuffixSamePrefixItems(s: seq<CryptoCurrency>, t: seq<CryptoCurrency>, n: int)
    requires 0 <= n <= |s| == |t|
    requires multiset(s) == multiset(t)
    requires s[n..] == t[n..]
    ensures multiset(s[..n]) == multiset(t[..n])
  {
    assert s == s[..n] + s[n..];
    assert t == t[..n] + t[n..];
    assert multiset(s) == multiset(s[..n]) + multiset(s[n..]);
    assert multiset(t) == multiset(t[..n]) + multiset(t[n..]);
    assert multiset(s[..n]) == multiset(s) - multiset(s[n..]);
    assert multiset(t[..n]) == multiset(t) - multiset(t[n..]);
  }

  /**
   The state of an insertion step that started from `orig`: the inserted item
   sits at `j` (Inserting), `s` is a stable rearrangement of `orig`, and
   nothing after `i` has moved.
   */
  ghost predicate InsertState(sortBy: SortBy, sortOrder: SortOrder, s: seq<CryptoCurrency>, orig: seq<CryptoCurrency>, i: int, j: int)
  {
    && 0 <= j <= i < |s| == |orig|
    && Inserting(sortBy, sortOrder, s, i, j)
    && Rearranged(sortBy, s, orig)
    && s[i + 1..] == orig[i + 1..]
  }

  /** One swap of an insertion step keeps its state, with the inserted item one place further left. */
  lemma InsertStateAfterSwap(sortBy: SortBy, sortOrder: SortOrder, s: seq<CryptoCurrency>, orig: seq<CryptoCurrency>, i: int, j: int)
    requires InsertState(sortBy, sortOrder, s, orig, i, j)
    requires j > 0 && Compare(sortBy, sortOrder, s[j - 1], s[j]) > 0.0
    ensures InsertState(sortBy, sortOrder, s[j - 1 := s[j]][j := s[j - 1]], orig, i, j - 1)
  {
    var t := s[j - 1 := s[j]][j := s[j - 1]];
    CompareZeroIffSameKey(sortBy, sortOrder, s[j - 1], s[j]);
    SwapNeighboursKeepsGroups(sortBy, s, j);
    RearrangedTransitive(sortBy, t, s, orig);
    InsertingAfterSwap(sortBy, sortOrder, s, i, j);
    assert t[i + 1..] == s[i + 1..];
  }

  /**
   When an insertion step stops, `s[..i + 1]` is in order and holds the items
   of `orig[..i + 1]`, the rest is as in `orig`, and the whole is a stable
   rearrangement of `orig`.
   */
  lemma InsertStateDone(sortBy: SortBy, sortOrder: SortOrder, s: seq<CryptoCurrency>, orig: seq<CryptoCurrency>, i: int, j: int)
    requires InsertState(sortBy, sortOrder, s, orig, i, j)
    requires j > 0 ==> Compare(sortBy, sortOrder, s[j - 1], s[j]) <= 0.0
    ensures forall p, q :: 0 <= p < q <= i ==> Compare(sortBy, sortOrder, s[p], s[q]) <= 0.0
    ensures Rearranged(sortBy, s, orig)
    ensures s[i + 1..] == orig[i + 1..]
    ensures multiset(s[..i + 1]) == multiset(orig[..i + 1])
  {
    InsertingDone(sortBy, sortOrder, s, i, j);
    SameSuffixSamePrefixItems(s, orig, i + 1);
  }

  /**
   One insertion step: with `a[..i]` already in order, moves `a[i]` left past
   every neighbour that the comparator says must go after it, and stops at
   the first one that may go before it (or at the front). Afterwards
   `a[..i + 1]` is in order and holds the old `a[..i + 1]`'s items, nothing
   after `i` has moved, and items with equal keys never pass each other.
   */
  method InsertStep(a: array<CryptoCurrency>, sortBy: SortBy, sortOrder: SortOrder, i: int)
    requires 0 <= i < a.Length
    requires forall p, q :: 0 <= p < q < i ==> Compare(sortBy, sortOrder, a[p], a[q]) <= 0.0
    modifies a
    ensures forall p, q :: 0 <= p < q <= i ==> Compare(sortBy, sortOrder, a[p], a[q]) <= 0.0
    ensures Rearranged(sortBy, a[..], old(a[..]))
    ensures a[i + 1..] == old(a[i + 1..])
    ensures multiset(a[..i + 1]) == multiset(old(a[..i + 1]))
  {
    var j := i;
    while j > 0 && Compare(sortBy, sortOrder, a[j - 1], a[j]) > 0.0
      invariant InsertState(sortBy, sortOrder, a[..], old(a[..]), i, j)
    {
      ghost var before := a[..];
      InsertStateAfterSwap(sortBy, sortOrder, before, old(a[..]), i, j);
      a[j - 1], a[j] := a[j], a[j - 1];
      assert a[..] == before[j - 1 := before[j]][j := before[j - 1]];
      j := j - 1;
    }
    InsertStateDone(sortBy, sortOrder, a[..], old(a[..]), i, j);
    assert a[..][..i + 1] == a[..i + 1];
    assert old(a[..])[..i + 1] == old(a[..i + 1]);
  }

  /**
   Sorts `a` in place in comparator order by repeated insertion steps; the
   result holds the same items and keeps each group of equal keys in order.
   */
  method InsertionSort(a: array<CryptoCurrency>, sortBy: SortBy, sortOrder: SortOrder)
    modifies a
    ensures Sorted(sortBy, sortOrder, a[..])
    ensures Rearranged(sortBy, a[..], old(a[..]))
  {
    var i := 0;
    while i < a.Length
      invariant 0 <= i <= a.Length
      invariant forall p, q :: 0 <= p < q < i ==> Compare(sortBy, sortOrder, a[p], a[q]) <= 0.0
      invariant Rearranged(sortBy, a[..], old(a[..]))
    {
      ghost var before := a[..];
      InsertStep(a, sortBy, sortOrder, i);
      RearrangedTransitive(sortBy, a[..], before, old(a[..]));
      i := i + 1;
    }
  }

  /**
   The list as displayed: a fresh copy of `cryptoList`, sorted stably in the
   chosen direction on the chosen key. The result holds the same coins,
   is in comparator order, and keeps coins with equal keys in their input
   order. The method may modify nothing, so `cryptoList` itself is untouched.
   */
  method SortCryptoList(cryptoList: array<CryptoCurrency>, sortBy: SortBy, sortOrder: SortOrder)
    returns (sorted: seq<CryptoCurrency>)
    ensures |sorted| == cryptoList.Length
    ensures multiset(sorted) == multiset(cryptoList[..])
    ensures Sorted(sortBy, sortOrder, sorted)
    ensures SameKeyGroups(sortBy, sorted, cryptoList[..])
  {
    var copy := new CryptoCurrency[cryptoList.Length];
    var i := 0;
    while i < cryptoList.Length
      invariant 0 <= i <= cryptoList.Length
      invariant copy[..i] == cryptoList[..i]
    {
      copy[i] := cryptoList[i];
      i := i + 1;
    }
    assert copy[..] == cryptoList[..];
    InsertionSort(copy, sortBy, sortOrder);
    sorted := copy[..];
  }

  /** The colour of the change figure. */
  datatype ChangeColor = Green | Red

  /** The trend icon beside the change figure. */
  datatype TrendIcon = TrendingUp | TrendingDown

  /** The change figure is green when the change is positive, red otherwise. */
  function ChangeColorOf(c: CryptoCurrency): ChangeColor
  {
    if c.changePercent24Hr > 0.0 then Green else Red
  }

  /** The icon points up when the change is positive, down otherwise. */
  function TrendIconOf(c: CryptoCurrency): TrendIcon
  {
    if c.changePercent24Hr > 0.0 then TrendingUp else TrendingDown
  }

  /**
   A coin shows as up and green exactly when its change is strictly positive;
   a change of zero or below shows as down and red. Colour and icon always agree.
   */
  lemma UpExactlyWhenPositive(c: CryptoCurrency)
    ensures ChangeColorOf(c) == Green <==> c.changePercent24Hr > 0.0
    ensures TrendIconOf(c) == TrendingUp <==> c.changePercent24Hr > 0.0
    ensures ChangeColorOf(c) == Green <==> TrendIconOf(c) == TrendingUp
  {
  }

  /**
   In a list sorted by change, the coins shown as up form one block: first
   when the order is descending, last when it is ascending.
   */
  lemma UpCoinsAreContiguous(sortOrder: SortOrder, s: seq<CryptoCurrency>, i: int, j: int)
    requires Sorted(Change, sortOrder, s)
    requires 0 <= i < j < |s|
    ensures sortOrder == Desc && TrendIconOf(s[j]) == TrendingUp ==> TrendIconOf(s[i]) == TrendingUp
    ensures sortOrder == Asc && TrendIconOf(s[i]) == TrendingUp ==> TrendIconOf(s[j]) == TrendingUp
  {
  }
}

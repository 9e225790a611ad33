/** A raw order-book entry `[price, size]` after `parseFloat`, and the two
    folds both screens compute over lists of them: total size and
    volume-weighted average price. Arithmetic is exact. */
module Orders {

  datatype Order = Order(price: real, size: real)

  /** The term `size` summed for the total size. */
  function Volume(o: Order): (r: real) { o.size }

  /** The term `price * size` summed for the traded value. */
  function Notional(o: Order): (r: real) { o.price * o.size }

  /** `orders.reduce((acc, o) => acc + term(o), 0)`: a left fold. */
  function Sum(s: seq<Order>, term: Order -> real): (r: real)
    decreases |s|
  {
    if s == [] then 0.0 else Sum(s[..|s| - 1], term) + term(s[|s| - 1])
  }

  /** Σ size */
  function TotalSize(s: seq<Order>): (r: real) { Sum(s, Volume) }

  /** Σ price · size */
  function TotalNotional(s: seq<Order>): (r: real) { Sum(s, Notional) }

  /** Σ price · size / Σ size */
  function Vwap(s: seq<Order>): (r: real)
    requires TotalSize(s) != 0.0
  {
    TotalNotional(s) / TotalSize(s)
  }

  /** Every size is non-negative. */
  predicate NonNegativeSizes(s: seq<Order>) {
    forall i :: 0 <= i < |s| ==> s[i].size >= 0.0
  }

  /** The lowest price in a non-empty list. */
  function MinPrice(s: seq<Order>): (r: real)
    requires s != []
    ensures forall i :: 0 <= i < |s| ==> r <= s[i].price
    ensures exists i :: 0 <= i < |s| && r == s[i].price
    decreases |s|
  {
    if |s| == 1 then s[0].price
    else
      var m := MinPrice(s[..|s| - 1]);
      if s[|s| - 1].price < m then s[|s| - 1].price else m
  }

  /** The highest price in a non-empty list. */
  function MaxPrice(s: seq<Order>): (r: real)
    requires s != []
    ensures forall i :: 0 <= i < |s| ==> s[i].price <= r
    ensures exists i :: 0 <= i < |s| && r == s[i].price
    decreases |s|
  {
    if |s| == 1 then s[0].price
    else
      var m := MaxPrice(s[..|s| - 1]);
      if s[|s| - 1].price > m then s[|s| - 1].price else m
  }

  /** A fold over one order is that order's term. */
  lemma SumSingleton(o: Order, term: Order -> real)
    ensures Sum([o], term) == term(o)
  {
    assert [o][..0] == [];
  }

  /** A fold over a concatenation is the sum of the folds. */
  lemma {:induction false} SumConcat(a: seq<Order>, b: seq<Order>, term: Order -> real)
    ensures Sum(a + b, term) == Sum(a, term) + Sum(b, term)
    decreases |b|
  {
    if b != [] {
      var b' := b[..|b| - 1];
      assert (a + b)[..|a + b| - 1] == a + b';
      assert (a + b)[|a + b| - 1] == b[|b| - 1];
      SumConcat(a, b', term);
      assert a + b != [];
      assert Sum(a + b, term) == Sum(a + b', term) + term(b[|b| - 1]);
      assert Sum(b, term) == Sum(b', term) + term(b[|b| - 1]);
    } else {
      assert a + b == a;
    }
  }

  /** A fold does not depend on the order of the list: any permutation
      of the input gives the same sum. */
  lemma {:induction false} SumPermutation(s: seq<Order>, t: seq<Order>, term: Order -> real)
    requires multiset(s) == multiset(t)
    ensures Sum(s, term) == Sum(t, term)
    decreases |s|
  {
    if s == [] {
      assert |t| == |multiset(t)| == 0;
    } else {
      var x := s[|s| - 1];
      var s' := s[..|s| - 1];
      assert s == s' + [x];
      assert x in multiset(t);
      var i :| 0 <= i < |t| && t[i] == x;
      var t' := t[..i] + t[i + 1..];
      SumRemove(t, i, term);
      assert multiset(s') == multiset(t') by {
        assert multiset(s) == multiset(s') + multiset{x};
        RemoveMultiset(t, i);
      }
      SumPermutation(s', t', term);
    }
  }

  /** Taking element `i` out of a list takes its term out of the fold. */
  lemma SumRemove(t: seq<Order>, i: nat, term: Order -> real)
    requires i < |t|
    ensures Sum(t, term) == Sum(t[..i] + t[i + 1..], term) + term(t[i])
  {
    assert t == t[..i] + [t[i]] + t[i + 1..];
    SumConcat(t[..i] + [t[i]], t[i + 1..], term);
    assert (t[..i] + [t[i]])[..i] == t[..i];
    SumConcat(t[..i], t[i + 1..], term);
  }

  /** Taking element `i` out of a list takes one copy out of its multiset. */
  lemma RemoveMultiset(t: seq<Order>, i: nat)
    requires i < |t|
    ensures multiset(t[..i] + t[i + 1..]) == multiset(t) - multiset{t[i]}
  {
    assert t == t[..i] + [t[i]] + t[i + 1..];
    assert multiset(t) == multiset(t[..i]) + multiset{t[i]} + multiset(t[i + 1..]);
  }

  /** With non-negative sizes, the traded value lies between the total size
      priced at any lower bound and at any upper bound of the prices. */
  lemma {:induction false} NotionalBetween(s: seq<Order>, lo: real, hi: real)
    requires NonNegativeSizes(s)
    requires forall i :: 0 <= i < |s| ==> lo <= s[i].price <= hi
    ensures lo * TotalSize(s) <= TotalNotional(s) <= hi * TotalSize(s)
    decreases |s|
  {
    if s != [] {
      var s' := s[..|s| - 1];
      var o := s[|s| - 1];
      NotionalBetween(s', lo, hi);
      assert lo * o.size <= o.price * o.size <= hi * o.size by {
        assert o.size >= 0.0 && lo <= o.price <= hi;
        assert (o.price - lo) * o.size >= 0.0;
        assert (hi - o.price) * o.size >= 0.0;
      }
      assert lo * TotalSize(s) == lo * TotalSize(s') + lo * o.size;
      assert hi * TotalSize(s) == hi * TotalSize(s') + hi * o.size;
    }
  }

  /** The volume-weighted average of a list with non-negative sizes and a
      positive total lies between its lowest and its highest price. */
  lemma VwapWithinPrices(s: seq<Order>)
    requires NonNegativeSizes(s)
    requires TotalSize(s) > 0.0
    ensures s != []
    ensures MinPrice(s) <= Vwap(s) <= MaxPrice(s)
  {
    assert s != [];
    NotionalBetween(s, MinPrice(s), MaxPrice(s));
    QuotientBetween(TotalNotional(s), TotalSize(s), MinPrice(s), MaxPrice(s));
  }

  /** Dividing bounds `lo * t <= n <= hi * t` by a positive `t`. */
  lemma QuotientBetween(n: real, t: real, lo: real, hi: real)
    requires t > 0.0
    requires lo * t <= n <= hi * t
    ensures lo <= n / t <= hi
  {
    var q := n / t;
    assert q * t == n;
    assert (q - lo) * t >= 0.0;
    assert (hi - q) * t >= 0.0;
  }

  /** The volume-weighted average does not depend on the order of the list. */
  lemma VwapPermutation(s: seq<Order>, t: seq<Order>)
    requires multiset(s) == multiset(t)
    requires TotalSize(s) != 0.0
    ensures TotalSize(t) == TotalSize(s)
    ensures Vwap(t) == Vwap(s)
  {
    SumPermutation(s, t, Volume);
    SumPermutation(s, t, Notional);
  }
}

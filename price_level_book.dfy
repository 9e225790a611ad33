/** The aggregation both market-data screens perform: every order's price
    is rounded by `round`, and the sizes of orders whose rounded prices are
    equal are summed into one level. Keys keep the order in which their
    first order appeared, as a JavaScript object's keys do. These functions
    are the specification the screens' loops are proved against. */
module PriceLevelBook {
  import opened Orders
  import opened Dictionary

  /** The orders that round to `k`, in input order. */
  function Members<K(==)>(round: real -> K, s: seq<Order>, k: K): (r: seq<Order>)
    decreases |s|
  {
    if s == [] then []
    else Members(round, s[..|s| - 1], k) + (if round(s[|s| - 1].price) == k then [s[|s| - 1]] else [])
  }

  /** The size of the level at `k`: the summed sizes of its members. */
  function BucketSize<K(==)>(round: real -> K, s: seq<Order>, k: K): (r: real) {
    TotalSize(Members(round, s, k))
  }

  /** The rounded prices that occur, each once, in order of first occurrence. */
  function Keys<K(==)>(round: real -> K, s: seq<Order>): (r: seq<K>)
    decreases |s|
  {
    if s == [] then []
    else
      var ks := Keys(round, s[..|s| - 1]);
      var k := round(s[|s| - 1].price);
      if k in ks then ks else ks + [k]
  }

  /** The aggregated side: one entry per rounded price, holding its bucket. */
  function Grouped<K(==,!new)>(round: real -> K, s: seq<Order>): (d: Dict<K>)
    ensures Valid(d)
  {
    KeysDistinct(round, s);
    var ks := Keys(round, s);
    Dict(ks, map k | k in ks :: BucketSize(round, s, k))
  }

  /** An order is a member of bucket `k` exactly when it is an input order
      whose price rounds to `k`. */
  lemma {:induction false} MembersExact<K>(round: real -> K, s: seq<Order>, k: K, o: Order)
    ensures o in Members(round, s, k) <==> o in s && round(o.price) == k
    decreases |s|
  {
    if s != [] {
      var init := s[..|s| - 1];
      assert s == init + [s[|s| - 1]];
      MembersExact(round, init, k, o);
    }
  }

  /** No rounded price is listed twice. */
  lemma {:induction false} KeysDistinct<K>(round: real -> K, s: seq<Order>)
    ensures Distinct(Keys(round, s))
    decreases |s|
  {
    if s != [] {
      KeysDistinct(round, s[..|s| - 1]);
    }
  }

  /** A rounded price is listed exactly when some input order rounds to it. */
  lemma {:induction false} KeysExact<K>(round: real -> K, s: seq<Order>, k: K)
    ensures k in Keys(round, s) <==> exists i :: 0 <= i < |s| && round(s[i].price) == k
    decreases |s|
  {
    if s != [] {
      var init := s[..|s| - 1];
      KeysExact(round, init, k);
      if exists i :: 0 <= i < |s| && round(s[i].price) == k {
        var i :| 0 <= i < |s| && round(s[i].price) == k;
        if i < |init| {
          assert round(init[i].price) == k;
        }
      }
      if exists i :: 0 <= i < |init| && round(init[i].price) == k {
        var i :| 0 <= i < |init| && round(init[i].price) == k;
        assert round(s[i].price) == k;
      }
    }
  }

  /** There are never more levels than orders, and some level whenever
      there is some order. */
  lemma {:induction false} KeysCount<K>(round: real -> K, s: seq<Order>)
    ensures |Keys(round, s)| <= |s|
    ensures s != [] <==> Keys(round, s) != []
    decreases |s|
  {
    if s != [] {
      KeysCount(round, s[..|s| - 1]);
    }
  }

  /** Appending one order adds its size to its own bucket and to no other. */
  lemma BucketStep<K>(round: real -> K, t: seq<Order>, o: Order, k: K)
    ensures BucketSize(round, t + [o], k) == BucketSize(round, t, k) + (if round(o.price) == k then o.size else 0.0)
  {
    assert (t + [o])[..|t|] == t;
    var m := Members(round, t, k);
    if round(o.price) == k {
      assert (m + [o])[..|m|] == m;
    } else {
      assert m + [] == m;
    }
  }

  /** A price no order rounds to has an empty bucket. */
  lemma {:induction false} BucketOfAbsentKey<K>(round: real -> K, s: seq<Order>, k: K)
    requires k !in Keys(round, s)
    ensures Members(round, s, k) == []
    ensures BucketSize(round, s, k) == 0.0
    decreases |s|
  {
    if s != [] {
      BucketOfAbsentKey(round, s[..|s| - 1], k);
    }
  }

  /** The one-order steps between consecutive prefixes, as a loop over the
      input sees them. */
  lemma PrefixStep<K>(round: real -> K, s: seq<Order>, i: nat)
    requires i < |s|
    ensures Keys(round, s[..i + 1]) ==
      (if round(s[i].price) in Keys(round, s[..i]) then Keys(round, s[..i]) else Keys(round, s[..i]) + [round(s[i].price)])
    ensures forall k ::
      BucketSize(round, s[..i + 1], k) == BucketSize(round, s[..i], k) + (if round(s[i].price) == k then s[i].size else 0.0)
  {
    assert s[..i + 1] == s[..i] + [s[i]];
    assert s[..i + 1][..i] == s[..i];
    forall k ensures BucketSize(round, s[..i + 1], k) ==
      BucketSize(round, s[..i], k) + (if round(s[i].price) == k then s[i].size else 0.0)
    {
      BucketStep(round, s[..i], s[i], k);
    }
  }

  /** Conservation: the buckets together hold exactly the input's total size. */
  lemma {:induction false} GroupedConservesSize<K(!new)>(round: real -> K, s: seq<Order>)
    ensures Total(Grouped(round, s)) == TotalSize(s)
    decreases |s|
  {
    if s != [] {
      var t, o := s[..|s| - 1], s[|s| - 1];
      assert s == t + [o];
      GroupedConservesSize(round, t);
      GroupedStep(round, t, o);
    }
  }

  /** Appending one order raises the buckets' total by its size. */
  lemma GroupedStep<K(!new)>(round: real -> K, t: seq<Order>, o: Order)
    ensures Total(Grouped(round, t + [o])) == Total(Grouped(round, t)) + o.size
  {
    var s := t + [o];
    var k0 := round(o.price);
    assert s[..|s| - 1] == t;
    var ks := Keys(round, t);
    KeysDistinct(round, t);
    var mt := map k | k in ks :: BucketSize(round, t, k);
    var ms := map k | k in Keys(round, s) :: BucketSize(round, s, k);
    assert Total(Grouped(round, t)) == SumValues(ks, mt);
    assert Total(Grouped(round, s)) == SumValues(Keys(round, s), ms);
    forall k | k in ks
      ensures k in ms && ms[k] == mt[k] + (if k0 == k then o.size else 0.0)
    {
      BucketStep(round, t, o, k);
    }
    SumValuesPointUpdate(ks, mt, ms, k0, o.size);
    if k0 !in ks {
      var ks' := ks + [k0];
      assert Keys(round, s) == ks';
      assert ks'[..|ks'| - 1] == ks;
      assert SumValues(ks', ms) == SumValues(ks, ms) + ms[k0];
      BucketStep(round, t, o, k0);
      BucketOfAbsentKey(round, t, k0);
    }
  }

  /** With non-negative input sizes every level's size is non-negative. */
  lemma {:induction false} BucketNonNegative<K>(round: real -> K, s: seq<Order>, k: K)
    requires NonNegativeSizes(s)
    ensures BucketSize(round, s, k) >= 0.0
    decreases |s|
  {
    if s != [] {
      var t := s[..|s| - 1];
      assert s == t + [s[|s| - 1]];
      BucketNonNegative(round, t, k);
      BucketStep(round, t, s[|s| - 1], k);
    }
  }

  /** The state of a loop that has grouped the first `i` orders of `s`
      into the dictionary `d`. */
  ghost predicate Accumulated<K(!new)>(round: real -> K, s: seq<Order>, i: nat, d: Dict<K>)
    requires i <= |s|
  {
    && Valid(d)
    && d.keys == Keys(round, s[..i])
    && forall k :: k in d.values ==> d.values[k] == BucketSize(round, s[..i], k)
  }

  /** The bucket of `k` after `i` orders, read off a loop's dictionary:
      the stored value, or 0 for a key not yet present. */
  lemma AccumulatedBucket<K(!new)>(round: real -> K, s: seq<Order>, i: nat, d: Dict<K>, k: K)
    requires i <= |s|
    requires Accumulated(round, s, i, d)
    ensures BucketSize(round, s[..i], k) == if k in d.values then d.values[k] else 0.0
  {
    if k !in d.values {
      BucketOfAbsentKey(round, s[..i], k);
    }
  }

  /** Storing the bucket of order `i`'s rounded price plus its size groups
      one more order. */
  lemma AccumulateOrder<K(!new)>(round: real -> K, s: seq<Order>, i: nat, d: Dict<K>, v: real)
    requires i < |s|
    requires Accumulated(round, s, i, d)
    requires v == BucketSize(round, s[..i], round(s[i].price)) + s[i].size
    ensures Accumulated(round, s, i + 1, Put(d, round(s[i].price), v))
  {
    PrefixStep(round, s, i);
  }

  /** A loop that has grouped every order holds exactly `Grouped`. */
  lemma AccumulatedIsGrouped<K(!new)>(round: real -> K, s: seq<Order>, d: Dict<K>)
    requires Accumulated(round, s, |s|, d)
    ensures d == Grouped(round, s)
  {
    assert s[..|s|] == s;
    var g := Grouped(round, s);
    assert g.keys == d.keys;
    forall k ensures k in d.values <==> k in g.values {
      assert k in d.values <==> k in d.keys;
    }
    forall k | k in d.values ensures d.values[k] == g.values[k] {
    }
    assert d.values == g.values;
  }

  /** Bucket `k` holds each order that rounds to `k` as many times as the
      input does, and no other order. */
  lemma {:induction false} MembersCount<K>(round: real -> K, s: seq<Order>, k: K, o: Order)
    ensures multiset(Members(round, s, k))[o] == if round(o.price) == k then multiset(s)[o] else 0
    decreases |s|
  {
    if s != [] {
      var init, last := s[..|s| - 1], s[|s| - 1];
      assert s == init + [last];
      MembersCount(round, init, k, o);
    }
  }

  /** Reordering the input changes only the order of the keys: the same
      rounded prices are present, with the same bucket sizes. */
  lemma GroupedValuesOrderIndependent<K(!new)>(round: real -> K, s: seq<Order>, t: seq<Order>)
    requires multiset(s) == multiset(t)
    ensures Grouped(round, s).values == Grouped(round, t).values
  {
    forall k ensures k in Keys(round, s) <==> k in Keys(round, t) {
      KeysExact(round, s, k);
      KeysExact(round, t, k);
      if exists i :: 0 <= i < |s| && round(s[i].price) == k {
        var i :| 0 <= i < |s| && round(s[i].price) == k;
        assert s[i] in multiset(t);
        var j :| 0 <= j < |t| && t[j] == s[i];
      }
      if exists j :: 0 <= j < |t| && round(t[j].price) == k {
        var j :| 0 <= j < |t| && round(t[j].price) == k;
        assert t[j] in multiset(s);
        var i :| 0 <= i < |s| && s[i] == t[j];
      }
    }
    forall k ensures BucketSize(round, s, k) == BucketSize(round, t, k) {
      forall o ensures multiset(Members(round, s, k))[o] == multiset(Members(round, t, k))[o] {
        MembersCount(round, s, k, o);
        MembersCount(round, t, k, o);
      }
      assert multiset(Members(round, s, k)) == multiset(Members(round, t, k));
      SumPermutation(Members(round, s, k), Members(round, t, k), Volume);
    }
  }
}

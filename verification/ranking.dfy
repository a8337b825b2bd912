/** Python's `sorted(..., key=k, reverse=True)`, which is stable: positions ordered by
    descending key, equal keys kept in their original order. It is computed on positions
    (indices into the input), by insertion. */
module Ranking {

  /** Position `i` goes before position `j`: a higher key, or an equal key and an
      earlier position. */
  predicate Before(keys: seq<int>, i: nat, j: nat)
    requires i < |keys| && j < |keys|
  {
    keys[i] > keys[j] || (keys[i] == keys[j] && i < j)
  }

  /** Every entry of `order` is a position below `n`. */
  predicate Within(n: nat, order: seq<nat>) {
    forall a :: 0 <= a < |order| ==> order[a] < n
  }

  /** Each position goes before every later one. */
  predicate Ordered(keys: seq<int>, order: seq<nat>)
    requires Within(|keys|, order)
  {
    forall a, b :: 0 <= a < b < |order| ==> Before(keys, order[a], order[b])
  }

  /** The positions `0, 1, ..., n - 1`, once each. */
  function Below(n: nat): multiset<nat> {
    if n == 0 then multiset{} else Below(n - 1) + multiset{n - 1}
  }

  /** Inserts position `x` into `order` in front of the first position it goes before. */
  function Insert(keys: seq<int>, x: nat, order: seq<nat>): (r: seq<nat>)
    requires x < |keys| && Within(|keys|, order)
    ensures Within(|keys|, r) && |r| == |order| + 1
  {
    if order == [] then [x]
    else if Before(keys, x, order[0]) then [x] + order
    else
      assert order == [order[0]] + order[1..];
      [order[0]] + Insert(keys, x, order[1..])
  }

  lemma {:induction false} InsertMultiset(keys: seq<int>, x: nat, order: seq<nat>)
    requires x < |keys| && Within(|keys|, order)
    ensures multiset(Insert(keys, x, order)) == multiset(order) + multiset{x}
  {
    if order != [] && !Before(keys, x, order[0]) {
      assert order == [order[0]] + order[1..];
      InsertMultiset(keys, x, order[1..]);
    }
  }

  lemma {:induction false} InsertOrdered(keys: seq<int>, x: nat, order: seq<nat>)
    requires x < |keys| && Within(|keys|, order) && Ordered(keys, order) && x !in order
    ensures Ordered(keys, Insert(keys, x, order))
  {
    if order == [] {
    } else if Before(keys, x, order[0]) {
      forall c | 0 <= c < |order| ensures Before(keys, x, order[c]) {
        if c > 0 {
          assert Before(keys, order[0], order[c]);
        }
      }
      ConsOrdered(keys, x, order);
    } else {
      var rest := order[1..];
      assert Ordered(keys, rest) by {
        forall a, b | 0 <= a < b < |rest| ensures Before(keys, rest[a], rest[b]) {
          assert rest[a] == order[a + 1] && rest[b] == order[b + 1];
        }
      }
      assert x !in rest by {
        assert forall a :: 0 <= a < |rest| ==> rest[a] == order[a + 1];
      }
      InsertOrdered(keys, x, rest);
      HeadBeforeInsert(keys, x, order);
      ConsOrdered(keys, order[0], Insert(keys, x, rest));
    }
  }

  /** When `x` goes after the head of an ordered list, the head goes before everything
      the rest becomes once `x` is inserted. */
  lemma HeadBeforeInsert(keys: seq<int>, x: nat, order: seq<nat>)
    requires x < |keys| && Within(|keys|, order) && Ordered(keys, order)
    requires order != [] && !Before(keys, x, order[0]) && x !in order
    ensures forall c :: 0 <= c < |Insert(keys, x, order[1..])| ==> Before(keys, order[0], Insert(keys, x, order[1..])[c])
  {
    var rest := order[1..];
    var tail := Insert(keys, x, rest);
    InsertMultiset(keys, x, rest);
    forall c | 0 <= c < |tail| ensures Before(keys, order[0], tail[c]) {
      var y := tail[c];
      assert y in multiset(tail);
      if y != x {
        assert y in multiset(rest);
        var a :| 0 <= a < |rest| && rest[a] == y;
        assert order[a + 1] == y;
      }
    }
  }

  /** A head that goes before every entry of an ordered list keeps it ordered. */
  lemma ConsOrdered(keys: seq<int>, h: nat, order: seq<nat>)
    requires h < |keys| && Within(|keys|, order) && Ordered(keys, order)
    requires forall c :: 0 <= c < |order| ==> Before(keys, h, order[c])
    ensures Within(|keys|, [h] + order) && Ordered(keys, [h] + order)
  {
    var r := [h] + order;
    forall a, b | 0 <= a < b < |r| ensures Before(keys, r[a], r[b]) {
      assert r[b] == order[b - 1];
      if a > 0 {
        assert r[a] == order[a - 1];
      }
    }
  }

  /** Inserts positions `n, n + 1, ..., |keys| - 1`, in that order, into `acc`. */
  function RankFrom(keys: seq<int>, n: nat, acc: seq<nat>): (r: seq<nat>)
    requires n <= |keys| && Within(|keys|, acc)
    ensures Within(|keys|, r) && |r| == |acc| + |keys| - n
    decreases |keys| - n
  {
    if n == |keys| then acc else RankFrom(keys, n + 1, Insert(keys, n, acc))
  }

  /** The order `sorted` puts the positions of `keys` in. */
  function Rank(keys: seq<int>): (r: seq<nat>)
    ensures Within(|keys|, r) && |r| == |keys|
  {
    RankFrom(keys, 0, [])
  }

  /** Started from positions `0, ..., n - 1`, the insertions end with every position once. */
  lemma {:induction false} RankFromMultiset(keys: seq<int>, n: nat, acc: seq<nat>)
    requires n <= |keys| && Within(|keys|, acc) && multiset(acc) == Below(n)
    ensures multiset(RankFrom(keys, n, acc)) == Below(|keys|)
    decreases |keys| - n
  {
    if n < |keys| {
      InsertBelow(keys, n, acc);
      RankFromMultiset(keys, n + 1, Insert(keys, n, acc));
    }
  }

  /** Inserting position `n` into positions `0, ..., n - 1` gives positions `0, ..., n`. */
  lemma InsertBelow(keys: seq<int>, n: nat, acc: seq<nat>)
    requires n < |keys| && Within(|keys|, acc) && multiset(acc) == Below(n)
    ensures multiset(Insert(keys, n, acc)) == Below(n + 1)
  {
    InsertMultiset(keys, n, acc);
  }

  /** `acc` is what the insertions have made of positions `0, ..., n - 1`: each once, in
      order. */
  predicate Partial(keys: seq<int>, n: nat, acc: seq<nat>) {
    n <= |keys| && Within(|keys|, acc) && multiset(acc) == Below(n) && Ordered(keys, acc)
  }

  /** One insertion extends the partial ranking by the next position. */
  lemma PartialStep(keys: seq<int>, n: nat, acc: seq<nat>)
    requires n < |keys| && Partial(keys, n, acc)
    ensures Partial(keys, n + 1, Insert(keys, n, acc))
  {
    BelowFresh(n, acc);
    InsertBelow(keys, n, acc);
    InsertOrdered(keys, n, acc);
  }

  /** Started from a partial ranking, the insertions keep it ordered. */
  lemma {:induction false} RankFromOrdered(keys: seq<int>, n: nat, acc: seq<nat>)
    requires Partial(keys, n, acc)
    ensures Ordered(keys, RankFrom(keys, n, acc))
    decreases |keys| - n
  {
    if n < |keys| {
      PartialStep(keys, n, acc);
      RankFromOrdered(keys, n + 1, Insert(keys, n, acc));
    }
  }

  /** The ranking lists every position once, keys never increase along it, and positions
      with equal keys keep their original order. */
  lemma RankProperties(keys: seq<int>)
    ensures |Rank(keys)| == |keys|
    ensures forall i: nat :: i < |keys| ==> multiset(Rank(keys))[i] == 1
    ensures forall a, b :: 0 <= a < b < |keys| ==> keys[Rank(keys)[a]] >= keys[Rank(keys)[b]]
    ensures forall a, b :: 0 <= a < b < |keys| && keys[Rank(keys)[a]] == keys[Rank(keys)[b]]
                           ==> Rank(keys)[a] < Rank(keys)[b]
  {
    RankFromMultiset(keys, 0, []);
    assert Partial(keys, 0, []);
    RankFromOrdered(keys, 0, []);
    forall i: nat | i < |keys| ensures multiset(Rank(keys))[i] == 1 {
      BelowCount(|keys|, i);
    }
  }

  /** A list holding positions `0, ..., n - 1` does not hold `n`. */
  lemma BelowFresh(n: nat, acc: seq<nat>)
    requires multiset(acc) == Below(n)
    ensures n !in acc
  {
    BelowCount(n, n);
    assert multiset(acc)[n] == 0;
  }

  lemma {:induction false} BelowCount(n: nat, i: nat)
    ensures Below(n)[i] == if i < n then 1 else 0
  {
    if n > 0 {
      BelowCount(n - 1, i);
    }
  }

  /** `xs` read in the order `order` gives. */
  function Arrange<T>(xs: seq<T>, order: seq<nat>): (r: seq<T>)
    requires Within(|xs|, order)
    ensures |r| == |order|
  {
    seq(|order|, a requires 0 <= a < |order| => xs[order[a]])
  }

  /** Entry `a` of the rearranged sequence is the input's entry at position `order[a]`. */
  lemma ArrangeAt<T>(xs: seq<T>, order: seq<nat>, a: nat)
    requires Within(|xs|, order) && a < |order|
    ensures Arrange(xs, order)[a] == xs[order[a]]
  {
  }

  lemma ArrangeCons<T>(xs: seq<T>, order: seq<nat>)
    requires Within(|xs|, order) && order != []
    ensures Within(|xs|, order[1..])
    ensures Arrange(xs, order) == [xs[order[0]]] + Arrange(xs, order[1..])
  {
    assert forall a :: 0 <= a < |order| - 1 ==> order[1..][a] == order[a + 1];
  }

  /** Rearranging by a ranking loses and duplicates nothing: the result is a permutation. */
  lemma ArrangeByRankIsPermutation<T>(xs: seq<T>, keys: seq<int>)
    requires |keys| == |xs|
    ensures multiset(Arrange(xs, Rank(keys))) == multiset(xs)
  {
    ArrangeRankFrom(xs, keys, 0, []);
    assert xs[0..] == xs;
    assert Arrange(xs, []) == [];
  }

  /** The remaining insertions add exactly the entries `xs[n..]` to the rearranged list. */
  lemma {:induction false} ArrangeRankFrom<T>(xs: seq<T>, keys: seq<int>, n: nat, acc: seq<nat>)
    requires |keys| == |xs| && n <= |xs| && Within(|keys|, acc)
    ensures multiset(Arrange(xs, RankFrom(keys, n, acc))) == multiset(Arrange(xs, acc)) + multiset(xs[n..])
    decreases |xs| - n
  {
    if n < |xs| {
      ArrangeInsert(xs, keys, n, acc);
      ArrangeRankFrom(xs, keys, n + 1, Insert(keys, n, acc));
      assert xs[n..] == [xs[n]] + xs[n + 1..];
    }
  }

  /** Inserting position `x` adds exactly the entry `xs[x]` to the rearranged sequence. */
  lemma {:induction false} ArrangeInsert<T>(xs: seq<T>, keys: seq<int>, x: nat, order: seq<nat>)
    requires |keys| == |xs| && x < |keys| && Within(|keys|, order)
    ensures multiset(Arrange(xs, Insert(keys, x, order))) == multiset(Arrange(xs, order)) + multiset{xs[x]}
  {
    var r := Insert(keys, x, order);
    if order == [] {
      assert Arrange(xs, r) == [xs[x]];
    } else if Before(keys, x, order[0]) {
      ArrangeCons(xs, r);
      assert r[1..] == order;
    } else {
      var rest := order[1..];
      ArrangeCons(xs, order);
      ArrangeCons(xs, r);
      assert r[1..] == Insert(keys, x, rest);
      ArrangeInsert(xs, keys, x, rest);
    }
  }
}

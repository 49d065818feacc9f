/** Counting values into an insertion-ordered record, the way the chart code
    does with `reduce` into an object and then `Object.entries`: one entry
    per distinct value, in the order each value is first met. */
module Counting {
  import opened Types

  datatype Entry<K> = Entry(key: K, count: nat)

  /** Some entry has key `k`. */
  predicate HasKey<K(==)>(r: seq<Entry<K>>, k: K) {
    exists i :: 0 <= i < |r| && r[i].key == k
  }

  /** No key occurs twice, as for the keys of one object. */
  predicate DistinctKeys<K(==)>(r: seq<Entry<K>>) {
    forall i, j :: 0 <= i < j < |r| ==> r[i].key != r[j].key
  }

  /** The sum of the counts. */
  function Total<K>(r: seq<Entry<K>>): nat
    decreases |r|
  {
    if |r| == 0 then 0 else Total(r[..|r| - 1]) + r[|r| - 1].count
  }

  /** Where key `k` sits, if anywhere. */
  function IndexOfKey<K(==)>(r: seq<Entry<K>>, k: K): (o: Option<nat>)
    ensures o.None? ==> !HasKey(r, k)
    ensures o.Some? ==> o.value < |r| && r[o.value].key == k
    decreases |r|
  {
    if |r| == 0 then None
    else if r[|r| - 1].key == k then Some(|r| - 1)
    else
      var o := IndexOfKey(r[..|r| - 1], k);
      assert forall i :: 0 <= i < |r| - 1 ==> r[..|r| - 1][i] == r[i];
      o
  }

  /** `acc[k] = (acc[k] || 0) + 1`: bump an existing key in place, or add
      the key at the end with count one. */
  function Bump<K(==)>(r: seq<Entry<K>>, k: K): (b: seq<Entry<K>>)
    requires DistinctKeys(r)
    ensures DistinctKeys(b)
    ensures |b| == |r| || |b| == |r| + 1
    ensures forall i :: 0 <= i < |r| ==> b[i].key == r[i].key
    ensures forall i :: 0 <= i < |r| ==> b[i].count == r[i].count + (if r[i].key == k then 1 else 0)
    ensures |b| == |r| + 1 <==> !HasKey(r, k)
    ensures |b| == |r| + 1 ==> b[|r|] == Entry(k, 1)
    ensures Total(b) == Total(r) + 1
  {
    match IndexOfKey(r, k)
    case None =>
      var b := r + [Entry(k, 1)];
      assert b[..|r|] == r;
      b
    case Some(i) =>
      TotalUpdate(r, i, Entry(k, r[i].count + 1));
      r[i := Entry(k, r[i].count + 1)]
  }

  /** Bumping adds `k` to the keys and keeps every other key. */
  lemma BumpKeys<K(!new)>(r: seq<Entry<K>>, k: K)
    requires DistinctKeys(r)
    ensures forall x :: HasKey(Bump(r, k), x) <==> HasKey(r, x) || x == k
  {
    var b := Bump(r, k);
    forall x | HasKey(b, x)
      ensures HasKey(r, x) || x == k
    {
      var i :| 0 <= i < |b| && b[i].key == x;
      if i < |r| {
        assert r[i].key == x;
      }
    }
    forall x | HasKey(r, x)
      ensures HasKey(b, x)
    {
      var i :| 0 <= i < |r| && r[i].key == x;
      assert b[i].key == x;
    }
    if !HasKey(r, k) {
      assert b[|r|].key == k;
    } else {
      var i :| 0 <= i < |r| && r[i].key == k;
      assert b[i].key == k;
    }
  }

  /** Replacing one entry changes the total by the difference of counts. */
  lemma {:induction false} TotalUpdate<K>(r: seq<Entry<K>>, i: nat, e: Entry<K>)
    requires i < |r|
    ensures Total(r[i := e]) + r[i].count == Total(r) + e.count
    decreases |r|
  {
    var n := |r| - 1;
    var u := r[i := e];
    if i < n {
      assert u[..n] == r[..n][i := e];
      TotalUpdate(r[..n], i, e);
    } else {
      assert u[..n] == r[..n];
    }
  }

  /** `xs.reduce(...)` then `Object.entries`: the distinct values of `xs`
      with how often each occurs, in first-occurrence order. */
  function Tally<K(==,!new)>(xs: seq<K>): (r: seq<Entry<K>>)
    ensures DistinctKeys(r)
    ensures forall x :: HasKey(r, x) <==> x in xs
    ensures forall i :: 0 <= i < |r| ==> r[i].count == multiset(xs)[r[i].key]
    ensures Total(r) == |xs|
    decreases |xs|
  {
    if |xs| == 0 then []
    else
      var n := |xs| - 1;
      assert xs == xs[..n] + [xs[n]];
      var prev := Tally(xs[..n]);
      var r := Bump(prev, xs[n]);
      BumpKeys(prev, xs[n]);
      r
  }

  /** Every entry of the tally is a value of the list with its number of
      occurrences. */
  lemma TalliedEntry<K(!new)>(xs: seq<K>, e: Entry<K>)
    requires e in Tally(xs)
    ensures e.key in xs && e.count == multiset(xs)[e.key]
  {
    var r := Tally(xs);
    var a :| 0 <= a < |r| && r[a] == e;
    assert HasKey(r, e.key);
  }

  /** The set of keys of `r`. */
  function KeySet<K(==)>(r: seq<Entry<K>>): set<K> {
    set i | 0 <= i < |r| :: r[i].key
  }

  /** Distinct keys: as many keys as entries. */
  lemma {:induction false} KeySetSize<K>(r: seq<Entry<K>>)
    requires DistinctKeys(r)
    ensures |KeySet(r)| == |r|
    decreases |r|
  {
    if |r| > 0 {
      var n := |r| - 1;
      KeySetSize(r[..n]);
      assert KeySet(r) == KeySet(r[..n]) + {r[n].key};
      assert r[n].key !in KeySet(r[..n]);
    }
  }

  /** The index of the first occurrence of `x` in `xs`. */
  function FirstIndex<K(==)>(xs: seq<K>, x: K): (i: nat)
    requires x in xs
    ensures i < |xs| && xs[i] == x
    ensures forall k :: 0 <= k < i ==> xs[k] != x
    decreases |xs|
  {
    if xs[0] == x then 0 else 1 + FirstIndex(xs[1..], x)
  }

  /** Extending a list at the end keeps the first occurrences of values it
      already held. */
  lemma {:induction false} FirstIndexPrefix<K>(xs: seq<K>, n: nat, x: K)
    requires n <= |xs| && x in xs[..n]
    ensures FirstIndex(xs, x) == FirstIndex(xs[..n], x)
    decreases n
  {
    if xs[0] != x {
      assert xs[..n][1..] == xs[1..][..n - 1];
      FirstIndexPrefix(xs[1..], n - 1, x);
    }
  }

  /** The keys of `r` are in the order in which they first occur in `xs`. */
  predicate InFirstOccurrenceOrder<K(==)>(r: seq<Entry<K>>, xs: seq<K>) {
    forall i, j :: 0 <= i < j < |r| ==>
      r[i].key in xs && r[j].key in xs && FirstIndex(xs, r[i].key) < FirstIndex(xs, r[j].key)
  }

  /** A last value that occurs nowhere before first occurs at the end. */
  lemma LastFirstIndex<K>(xs: seq<K>)
    requires |xs| > 0 && xs[|xs| - 1] !in xs[..|xs| - 1]
    ensures FirstIndex(xs, xs[|xs| - 1]) == |xs| - 1
  {
  }

  /** One pair of entries after bumping with the last value, when the
      entries before it keep the first-occurrence order of the values before
      it. */
  lemma BumpPair<K(!new)>(xs: seq<K>, prev: seq<Entry<K>>, i: nat, j: nat)
    requires |xs| > 0 && DistinctKeys(prev)
    requires forall x :: HasKey(prev, x) <==> x in xs[..|xs| - 1]
    requires InFirstOccurrenceOrder(prev, xs[..|xs| - 1])
    requires i < j < |Bump(prev, xs[|xs| - 1])|
    ensures var r := Bump(prev, xs[|xs| - 1]);
            && r[i].key in xs && r[j].key in xs
            && FirstIndex(xs, r[i].key) < FirstIndex(xs, r[j].key)
  {
    var n := |xs| - 1;
    var r := Bump(prev, xs[n]);
    var ki, kj := r[i].key, r[j].key;
    assert ki == prev[i].key && HasKey(prev, ki);
    FirstIndexPrefix(xs, n, ki);
    if j < |prev| {
      assert kj == prev[j].key && HasKey(prev, kj);
      FirstIndexPrefix(xs, n, kj);
      assert FirstIndex(xs[..n], ki) < FirstIndex(xs[..n], kj);
    } else {
      assert kj == xs[n];
      LastFirstIndex(xs);
      assert FirstIndex(xs[..n], ki) < n;
    }
  }

  /** The tally of a non-empty list bumps the tally of all but its last
      value with that value. */
  lemma TallyStep<K(!new)>(xs: seq<K>)
    requires |xs| > 0
    ensures Tally(xs) == Bump(Tally(xs[..|xs| - 1]), xs[|xs| - 1])
  {
  }

  /** The entries come in the order in which their keys first occur. */
  lemma {:induction false} TallyFirstOccurrenceOrder<K(!new)>(xs: seq<K>)
    ensures InFirstOccurrenceOrder(Tally(xs), xs)
    decreases |xs|
  {
    if |xs| > 0 {
      TallyFirstOccurrenceOrder(xs[..|xs| - 1]);
      var n := |xs| - 1;
      var prev := Tally(xs[..n]);
      TallyStep(xs);
      forall i, j | 0 <= i < j < |Tally(xs)|
        ensures Tally(xs)[i].key in xs && Tally(xs)[j].key in xs
        ensures FirstIndex(xs, Tally(xs)[i].key) < FirstIndex(xs, Tally(xs)[j].key)
      {
        BumpPair(xs, prev, i, j);
      }
    }
  }
}

/** Option and Result, used for the program's nil pointers and error returns. */
module Wrappers {
  datatype Option<+T> = None | Some(value: T)

  datatype Result<+T, +E> = Ok(value: T) | Err(error: E)
}

/** Instants and durations are integers counting nanoseconds; instants are UTC. */
module Clock {
  type Time = int

  const MILLISECOND: int := 1_000_000
  const SECOND: int := 1_000 * MILLISECOND
  const MINUTE: int := 60 * SECOND
  const HOUR: int := 60 * MINUTE
  const DAY: int := 24 * HOUR
}

/** Facts about finite sequences that several components share. */
module Sequences {

  function Min(a: int, b: int): int
  {
    if a < b then a else b
  }

  /** The elements satisfying `p`, in order. */
  function Filter<T>(xs: seq<T>, p: T -> bool): (ys: seq<T>)
  {
    if xs == [] then []
    else
      var rest := Filter(xs[..|xs| - 1], p);
      if p(xs[|xs| - 1]) then rest + [xs[|xs| - 1]] else rest
  }

  lemma FilterSnoc<T>(xs: seq<T>, x: T, p: T -> bool)
    ensures Filter(xs + [x], p) == if p(x) then Filter(xs, p) + [x] else Filter(xs, p)
  {
    assert (xs + [x])[..|xs|] == xs;
  }

  lemma {:induction false} FilterMember<T>(xs: seq<T>, p: T -> bool, x: T)
    ensures x in Filter(xs, p) <==> x in xs && p(x)
  {
    if xs != [] {
      FilterMember(xs[..|xs| - 1], p, x);
      assert xs == xs[..|xs| - 1] + [xs[|xs| - 1]];
    }
  }

  /** Filtering by a weaker test first changes nothing. */
  lemma {:induction false} FilterFilter<T(!new)>(xs: seq<T>, weak: T -> bool, strong: T -> bool)
    requires forall x :: strong(x) ==> weak(x)
    ensures Filter(Filter(xs, weak), strong) == Filter(xs, strong)
  {
    if xs != [] {
      var init, last := xs[..|xs| - 1], xs[|xs| - 1];
      FilterFilter(init, weak, strong);
      if weak(last) {
        FilterSnoc(Filter(init, weak), last, strong);
      }
    }
  }

  lemma RepeatCounts<T>(xs: seq<T>, i: nat, j: nat)
    requires i < j < |xs|
    ensures multiset(xs)[xs[i]] >= 1
    ensures xs[i] == xs[j] ==> multiset(xs)[xs[i]] >= 2
  {
    assert xs == xs[..j] + xs[j..];
    assert xs[i] in xs[..j] && xs[j] in xs[j..];
  }

  ghost predicate Distinct<T>(xs: seq<T>)
  {
    forall i, j :: 0 <= i < j < |xs| ==> xs[i] != xs[j]
  }

  /** Listing a set: each of its members once and nothing else. */
  lemma ListsSet<T>(xs: seq<T>, s: set<T>)
    requires multiset(xs) == multiset(s)
    ensures Distinct(xs) && forall x :: x in xs <==> x in s
  {
    forall x ensures x in xs <==> x in s {
      assert x in xs <==> x in multiset(xs);
    }
    forall i, j | 0 <= i < j < |xs| ensures xs[i] != xs[j] {
      RepeatCounts(xs, i, j);
    }
  }

  lemma {:induction false} DistinctListsSet<T>(xs: seq<T>, s: set<T>)
    requires Distinct(xs) && forall x :: x in xs <==> x in s
    ensures multiset(xs) == multiset(s)
  {
    if xs == [] {
      assert s == {};
    } else {
      var init, last := xs[..|xs| - 1], xs[|xs| - 1];
      assert xs == init + [last];
      DistinctListsSet(init, s - {last});
      assert multiset(s) == multiset(s - {last}) + multiset{last};
    }
  }

  /** `f` applied to every element. */
  function Map<S, T>(xs: seq<S>, f: S -> T): (ys: seq<T>)
    ensures |ys| == |xs|
    ensures forall i :: 0 <= i < |xs| ==> ys[i] == f(xs[i])
  {
    seq(|xs|, i requires 0 <= i < |xs| => f(xs[i]))
  }

  lemma {:induction false} FilterAll<T>(xs: seq<T>, p: T -> bool)
    requires forall x :: x in xs ==> p(x)
    ensures Filter(xs, p) == xs
  {
    if xs != [] {
      FilterAll(xs[..|xs| - 1], p);
    }
  }

  lemma {:induction false} FilterShorter<T>(xs: seq<T>, p: T -> bool)
    ensures |Filter(xs, p)| <= |xs|
  {
    if xs != [] {
      FilterShorter(xs[..|xs| - 1], p);
    }
  }

  /** Filtering before or after a map, by tests that correspond. */
  lemma {:induction false} FilterMap<S(!new), T>(xs: seq<S>, p: S -> bool, f: S -> T, q: T -> bool)
    requires forall x :: p(x) <==> q(f(x))
    ensures Map(Filter(xs, p), f) == Filter(Map(xs, f), q)
  {
    if xs != [] {
      var init, last := xs[..|xs| - 1], xs[|xs| - 1];
      FilterMap(init, p, f, q);
      assert Map(xs, f) == Map(init, f) + [f(last)];
      FilterSnoc(Map(init, f), f(last), q);
    }
  }

  /** The concatenation of a list of lists. */
  function Flatten<T>(xss: seq<seq<T>>): (xs: seq<T>)
  {
    if xss == [] then [] else xss[0] + Flatten(xss[1..])
  }

  lemma ConcatAssociates<T>(a: seq<T>, b: seq<T>, c: seq<T>)
    ensures a + (b + c) == (a + b) + c
  {
  }

  lemma {:induction false} FlattenConcat<T>(a: seq<seq<T>>, b: seq<seq<T>>)
    ensures Flatten(a + b) == Flatten(a) + Flatten(b)
  {
    if a == [] {
      assert a + b == b;
    } else {
      FlattenConcat(a[1..], b);
      assert (a + b)[1..] == a[1..] + b;
      ConcatAssociates(a[0], Flatten(a[1..]), Flatten(b));
    }
  }

  lemma {:induction false} FlattenLonger<T>(xss: seq<seq<T>>)
    requires forall i :: 0 <= i < |xss| ==> xss[i] != []
    ensures |xss| <= |Flatten(xss)|
  {
    if xss != [] {
      FlattenLonger(xss[1..]);
    }
  }

  lemma {:induction false} FlattenMember<T>(xss: seq<seq<T>>, x: T)
    ensures x in Flatten(xss) <==> exists xs :: xs in xss && x in xs
  {
    if xss != [] {
      FlattenMember(xss[1..], x);
      assert xss == [xss[0]] + xss[1..];
    }
  }

  lemma {:induction false} FlattenSingletons<T>(xss: seq<seq<T>>, xs: seq<T>)
    requires |xss| == |xs| && forall i :: 0 <= i < |xs| ==> xss[i] == [xs[i]]
    ensures Flatten(xss) == xs
  {
    if xs != [] {
      FlattenSingletons(xss[1..], xs[1..]);
    }
  }

  /** One more element at the end of a mapped and flattened list. */
  lemma FlattenMapSnoc<S, T>(xs: seq<S>, x: S, f: S -> seq<T>)
    ensures Flatten(Map(xs + [x], f)) == Flatten(Map(xs, f)) + f(x)
  {
    assert Map(xs + [x], f) == Map(xs, f) + [f(x)];
    FlattenConcat(Map(xs, f), [f(x)]);
    assert Flatten([f(x)]) == f(x) + Flatten([]);
  }
}

/** How many keys of a map have a value with some property. */
module Counting {

  function Those<K, V>(m: map<K, V>, p: V -> bool): set<K>
  {
    set k | k in m && p(m[k])
  }

  /** 1 for true, 0 for false. */
  function One(b: bool): nat
  {
    if b then 1 else 0
  }

  lemma AddCount<K>(s: set<K>, t: set<K>, k: K)
    requires forall x :: x in t <==> x in s || x == k
    ensures |t| == |s| + 1 - One(k in s)
  {
    if k in s { assert t == s; } else { assert t == s + {k}; }
  }

  lemma RemoveCount<K>(s: set<K>, t: set<K>, k: K)
    requires forall x :: x in t <==> x in s && x != k
    ensures |t| == |s| - One(k in s)
  {
    if k in s { assert t == s - {k}; } else { assert t == s; }
  }

  lemma UpdateCount<K, V>(m: map<K, V>, k: K, to: V, p: V -> bool)
    ensures |Those(m[k := to], p)| == |Those(m, p)| + One(p(to)) - One(k in m && p(m[k]))
  {
    if p(to) {
      AddCount(Those(m, p), Those(m[k := to], p), k);
    } else {
      RemoveCount(Those(m, p), Those(m[k := to], p), k);
    }
  }
}

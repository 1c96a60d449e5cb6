/** Facts about sequences and sets shared by the modules of this project: concatenation, the sizes of
    finite sets, removing an element from two sequences with the same multiset, and the stable sort by
    an integer key, whose result is sorted, a permutation of its input, and keeps the order of the
    elements of each key. */
module Collections {

  lemma {:induction false} Assoc<T>(a: seq<T>, b: seq<T>, c: seq<T>)
    ensures (a + b) + c == a + (b + c)
  {
  }

  lemma {:induction false} SubsetSize<T>(a: set<T>, b: set<T>)
    requires a <= b
    ensures |a| <= |b|
    decreases a
  {
    if a != {} {
      var x :| x in a;
      SubsetSize(a - {x}, b - {x});
    }
  }

  function Range(lo: int, hi: int): (r: set<int>)
    requires lo <= hi
    ensures |r| == hi - lo
    ensures forall x :: x in r <==> lo <= x < hi
    decreases hi - lo
  {
    if lo == hi then {} else Range(lo, hi - 1) + {hi - 1}
  }

  lemma {:induction false} Choose<T>(s: set<T>) returns (x: T)
    requires s != {}
    ensures x in s
  {
    x :| x in s;
  }

  lemma {:induction false} OtherMember<T>(s: set<T>, x: T) returns (y: T)
    requires s != {} && (x in s ==> |s| > 1)
    ensures y in s && y != x
  {
    if x in s {
      assert |s - {x}| > 0;
      y :| y in s - {x};
    } else {
      y :| y in s;
    }
  }

  lemma {:induction false} RemoveOne<T>(s: seq<T>, i: nat)
    requires i < |s|
    ensures multiset(s[..i] + s[i + 1..]) == multiset(s) - multiset{s[i]}
  {
    assert s == s[..i] + [s[i]] + s[i + 1..];
  }

  /** Two orders of the same elements stay so without the first element of one. */
  lemma {:induction false} RemoveFromBoth<T>(u: seq<T>, v: seq<T>) returns (i: nat)
    requires u != [] && multiset(u) == multiset(v)
    ensures i < |v| && v[i] == u[0]
    ensures multiset(u[1..]) == multiset(v[..i] + v[i + 1..])
  {
    assert u[0] in multiset(v);
    i :| 0 <= i < |v| && v[i] == u[0];
    assert u[..0] + u[0 + 1..] == u[1..];
    RemoveOne(u, 0);
    RemoveOne(v, i);
  }

  ghost predicate Increasing(ps: seq<nat>) {
    forall i, j | 0 <= i < j < |ps| :: ps[i] < ps[j]
  }

  // ---------------------------------------------------------------------------
  // The stable sort by an integer key
  // ---------------------------------------------------------------------------

  function InsertBy<T>(key: T -> int, x: T, es: seq<T>): seq<T>
    decreases es
  {
    if es == [] || key(x) <= key(es[0]) then [x] + es else [es[0]] + InsertBy(key, x, es[1..])
  }

  function SortBy<T>(key: T -> int, es: seq<T>): seq<T>
    decreases es
  {
    if es == [] then [] else InsertBy(key, es[0], SortBy(key, es[1..]))
  }

  ghost predicate SortedBy<T>(key: T -> int, es: seq<T>) {
    forall i, j | 0 <= i < j < |es| :: key(es[i]) <= key(es[j])
  }

  /** The elements of key `k`, in order. */
  function WithKey<T>(key: T -> int, es: seq<T>, k: int): seq<T>
    decreases es
  {
    if es == [] then [] else (if key(es[0]) == k then [es[0]] else []) + WithKey(key, es[1..], k)
  }

  lemma {:induction false} InsertByKeepsAll<T>(key: T -> int, x: T, es: seq<T>)
    ensures multiset(InsertBy(key, x, es)) == multiset{x} + multiset(es)
    decreases es
  {
    if es != [] && key(x) > key(es[0]) {
      assert es == [es[0]] + es[1..];
      InsertByKeepsAll(key, x, es[1..]);
    }
  }

  lemma {:induction false} InsertByMember<T>(key: T -> int, x: T, es: seq<T>, e: T)
    ensures e in InsertBy(key, x, es) <==> e == x || e in es
  {
    InsertByKeepsAll(key, x, es);
    assert e in multiset(InsertBy(key, x, es)) <==> e in multiset{x} + multiset(es);
  }

  lemma {:induction false} PrependSorted<T>(key: T -> int, x: T, es: seq<T>)
    requires SortedBy(key, es) && forall e <- es :: key(x) <= key(e)
    ensures SortedBy(key, [x] + es)
  {
    var r := [x] + es;
    forall i, j | 0 <= i < j < |r| ensures key(r[i]) <= key(r[j]) {
      assert r[j] == es[j - 1] && r[j] in es;
    }
  }

  lemma {:induction false} InsertBySorted<T>(key: T -> int, x: T, es: seq<T>)
    requires SortedBy(key, es)
    ensures SortedBy(key, InsertBy(key, x, es))
    decreases es
  {
    if es == [] || key(x) <= key(es[0]) {
      PrependSorted(key, x, es);
    } else {
      InsertBySorted(key, x, es[1..]);
      forall e <- InsertBy(key, x, es[1..]) ensures key(es[0]) <= key(e) {
        InsertByMember(key, x, es[1..], e);
      }
      PrependSorted(key, es[0], InsertBy(key, x, es[1..]));
    }
  }

  /** The result is sorted and holds the same elements. */
  lemma {:induction false} SortBySorts<T>(key: T -> int, es: seq<T>)
    ensures SortedBy(key, SortBy(key, es)) && multiset(SortBy(key, es)) == multiset(es)
    ensures |SortBy(key, es)| == |es|
    decreases es
  {
    if es != [] {
      SortBySorts(key, es[1..]);
      InsertBySorted(key, es[0], SortBy(key, es[1..]));
      InsertByKeepsAll(key, es[0], SortBy(key, es[1..]));
      assert es == [es[0]] + es[1..];
    }
    assert |multiset(SortBy(key, es))| == |multiset(es)|;
  }

  lemma {:induction false} SortByMember<T>(key: T -> int, es: seq<T>, e: T)
    ensures e in SortBy(key, es) <==> e in es
  {
    SortBySorts(key, es);
    assert e in multiset(SortBy(key, es)) <==> e in multiset(es);
  }

  lemma {:induction false} WithKeyCons<T>(key: T -> int, x: T, es: seq<T>, k: int)
    ensures WithKey(key, [x] + es, k) == (if key(x) == k then [x] else []) + WithKey(key, es, k)
  {
    assert ([x] + es)[1..] == es;
  }

  lemma {:induction false} InsertByStable<T>(key: T -> int, x: T, es: seq<T>, k: int)
    ensures WithKey(key, InsertBy(key, x, es), k) == (if key(x) == k then [x] else []) + WithKey(key, es, k)
    decreases es
  {
    if es == [] || key(x) <= key(es[0]) {
      WithKeyCons(key, x, es, k);
    } else {
      InsertByStable(key, x, es[1..], k);
      WithKeyCons(key, es[0], InsertBy(key, x, es[1..]), k);
      // One of the two keys differs from k, so one of the two prefixes is empty.
    }
  }

  /** Elements of equal key keep their order. */
  lemma {:induction false} SortByStable<T>(key: T -> int, es: seq<T>, k: int)
    ensures WithKey(key, SortBy(key, es), k) == WithKey(key, es, k)
    decreases es
  {
    if es != [] {
      SortByStable(key, es[1..], k);
      InsertByStable(key, es[0], SortBy(key, es[1..]), k);
    }
  }

  /** In a sorted sequence the elements of the least key come first. */
  lemma {:induction false} LeastKeyFirst<T>(key: T -> int, es: seq<T>, k: int)
    requires SortedBy(key, es) && forall e <- es :: k <= key(e)
    ensures var n := |WithKey(key, es, k)|;
            n <= |es| && es[..n] == WithKey(key, es, k) && forall i | n <= i < |es| :: key(es[i]) != k
    decreases es
  {
    if es == [] {
    } else if key(es[0]) == k {
      var rest := es[1..];
      var n := |WithKey(key, rest, k)|;
      LeastKeyFirst(key, rest, k);
      assert es[..n + 1] == [es[0]] + rest[..n];
      forall i | n + 1 <= i < |es| ensures key(es[i]) != k {
        assert es[i] == rest[i - 1];
      }
    } else {
      forall e <- es ensures key(e) != k {
        var i :| 0 <= i < |es| && es[i] == e;
        assert key(es[0]) <= key(es[i]);
      }
      NoneWithKey(key, es, k);
    }
  }

  lemma {:induction false} NoneWithKey<T>(key: T -> int, es: seq<T>, k: int)
    requires forall e <- es :: key(e) != k
    ensures WithKey(key, es, k) == []
    decreases es
  {
    if es != [] {
      NoneWithKey(key, es[1..], k);
    }
  }
}

/** Lexicographic order and the stable sort by key that Python's `sorted` performs. */
module Ordering {
  import opened Basics

  predicate LexLe(a: seq<int>, b: seq<int>)
  {
    a == [] || (b != [] && (a[0] < b[0] || (a[0] == b[0] && LexLe(a[1..], b[1..]))))
  }

  lemma {:induction false} LexReflexive(a: seq<int>)
    ensures LexLe(a, a)
  {
    if a != [] {
      LexReflexive(a[1..]);
    }
  }

  lemma {:induction false} LexTotal(a: seq<int>, b: seq<int>)
    ensures LexLe(a, b) || LexLe(b, a)
  {
    if a != [] && b != [] {
      LexTotal(a[1..], b[1..]);
    }
  }

  lemma {:induction false} LexAntisymmetric(a: seq<int>, b: seq<int>)
    requires LexLe(a, b) && LexLe(b, a)
    ensures a == b
  {
    if a != [] && b != [] {
      LexAntisymmetric(a[1..], b[1..]);
      assert a == [a[0]] + a[1..] && b == [b[0]] + b[1..];
    }
  }

  lemma {:induction false} LexTransitive(a: seq<int>, b: seq<int>, c: seq<int>)
    requires LexLe(a, b) && LexLe(b, c)
    ensures LexLe(a, c)
  {
    if a != [] && a[0] == b[0] == c[0] {
      LexTransitive(a[1..], b[1..], c[1..]);
    }
  }

  /** A common prefix does not take part in the comparison. */
  lemma {:induction false} LexCommonPrefix(p: seq<int>, a: seq<int>, b: seq<int>)
    ensures LexLe(p + a, p + b) <==> LexLe(a, b)
  {
    if p == [] {
      assert p + a == a && p + b == b;
    } else {
      LexCommonPrefix(p[1..], a, b);
      assert (p + a)[1..] == p[1..] + a && (p + b)[1..] == p[1..] + b;
    }
  }

  /** The first difference decides the comparison, whatever follows it. */
  lemma {:induction false} LexFirstDifference(a: seq<int>, b: seq<int>, k: nat)
    requires k < |a| && k < |b| && a[..k] == b[..k] && a[k] < b[k]
    ensures LexLe(a, b) && !LexLe(b, a)
  {
    if k > 0 {
      assert a[0] == a[..k][0] == b[..k][0] == b[0];
      assert a[1..][..k - 1] == a[..k][1..] && b[1..][..k - 1] == b[..k][1..];
      LexFirstDifference(a[1..], b[1..], k - 1);
    }
  }

  // -- sorting --------------------------------------------------------------

  predicate SortedBy<T>(s: seq<T>, key: T -> seq<int>)
  {
    forall i, j :: 0 <= i < j < |s| ==> LexLe(key(s[i]), key(s[j]))
  }

  function Insert<T>(x: T, s: seq<T>, key: T -> seq<int>): seq<T>
  {
    if s == [] || LexLe(key(x), key(s[0])) then [x] + s
    else [s[0]] + Insert(x, s[1..], key)
  }

  /** `sorted(s, key=key)`. */
  function Sorted<T>(s: seq<T>, key: T -> seq<int>): seq<T>
  {
    if s == [] then [] else Insert(s[0], Sorted(s[1..], key), key)
  }

  lemma {:induction false} InsertSorts<T>(x: T, s: seq<T>, key: T -> seq<int>)
    requires SortedBy(s, key)
    ensures SortedBy(Insert(x, s, key), key)
    ensures multiset(Insert(x, s, key)) == multiset{x} + multiset(s)
    ensures Insert(x, s, key)[0] == x || (s != [] && Insert(x, s, key)[0] == s[0])
  {
    var r := Insert(x, s, key);
    if s == [] {
    } else if LexLe(key(x), key(s[0])) {
      assert multiset([x] + s) == multiset{x} + multiset(s);
      forall j | 0 < j < |r| ensures LexLe(key(r[0]), key(r[j])) {
        if j > 1 {
          LexTransitive(key(x), key(s[0]), key(s[j - 1]));
        }
      }
    } else {
      var t := Insert(x, s[1..], key);
      InsertSorts(x, s[1..], key);
      assert s == [s[0]] + s[1..];
      LexTotal(key(x), key(s[0]));
      forall j | 0 < j < |r| ensures LexLe(key(r[0]), key(r[j])) {
        assert r[j] == t[j - 1] && t[j - 1] in multiset(t);
        assert r[j] == x || r[j] in s[1..];
      }
    }
  }

  /** Sorting yields a sorted permutation. */
  lemma {:induction false} SortedIsSort<T>(s: seq<T>, key: T -> seq<int>)
    ensures SortedBy(Sorted(s, key), key)
    ensures multiset(Sorted(s, key)) == multiset(s)
    ensures |Sorted(s, key)| == |s|
    ensures forall x :: x in Sorted(s, key) <==> x in s
  {
    if s != [] {
      SortedIsSort(s[1..], key);
      InsertSorts(s[0], Sorted(s[1..], key), key);
      assert s == [s[0]] + s[1..];
    }
    SameElements(Sorted(s, key), s);
  }

  lemma SameElements<T>(a: seq<T>, b: seq<T>)
    requires multiset(a) == multiset(b)
    ensures |a| == |b|
    ensures forall x :: x in a <==> x in b
  {
    assert |multiset(a)| == |a| && |multiset(b)| == |b|;
    forall x ensures x in a <==> x in b {
      assert x in a <==> x in multiset(a);
      assert x in b <==> x in multiset(b);
    }
  }

  /** The head of a sorted sequence is below every element. */
  lemma HeadIsLeast<T>(s: seq<T>, key: T -> seq<int>, x: T)
    requires SortedBy(s, key) && x in s
    ensures LexLe(key(s[0]), key(x))
  {
    LexReflexive(key(x));
  }

  lemma TailMultiset<T>(s: seq<T>)
    requires s != []
    ensures multiset(s[1..]) == multiset(s) - multiset{s[0]}
  {
    assert s == [s[0]] + s[1..];
  }

  predicate KeyInjective<T(==)>(s: seq<T>, key: T -> seq<int>)
  {
    forall i, j :: 0 <= i < |s| && 0 <= j < |s| && key(s[i]) == key(s[j]) ==> s[i] == s[j]
  }

  lemma SortedHeadsAgree<T>(a: seq<T>, b: seq<T>, key: T -> seq<int>)
    requires SortedBy(a, key) && SortedBy(b, key) && KeyInjective(a, key)
    requires multiset(a) == multiset(b) && a != [] && b != []
    ensures a[0] == b[0]
  {
    SameElements(a, b);
    assert a[0] in b && b[0] in a;
    HeadIsLeast(a, key, b[0]);
    HeadIsLeast(b, key, a[0]);
    LexAntisymmetric(key(a[0]), key(b[0]));
  }

  /** Two sorted permutations under an injective key are one sequence. */
  lemma {:induction false} SortIsUnique<T>(a: seq<T>, b: seq<T>, key: T -> seq<int>)
    requires SortedBy(a, key) && SortedBy(b, key) && KeyInjective(a, key)
    requires multiset(a) == multiset(b)
    ensures a == b
  {
    SameElements(a, b);
    if a != [] {
      SortedHeadsAgree(a, b, key);
      TailMultiset(a);
      TailMultiset(b);
      SortIsUnique(a[1..], b[1..], key);
      assert a == [a[0]] + a[1..] && b == [b[0]] + b[1..];
    }
  }

  /** Keys that order the elements alike sort them alike. */
  lemma {:induction false} SortsAgree<T(!new)>(s: seq<T>, k1: T -> seq<int>, k2: T -> seq<int>)
    requires forall x, y :: x in s && y in s ==> (LexLe(k1(x), k1(y)) <==> LexLe(k2(x), k2(y)))
    ensures Sorted(s, k1) == Sorted(s, k2)
  {
    if s != [] {
      SortsAgree(s[1..], k1, k2);
      SortedIsSort(s[1..], k1);
      InsertsAgree(s[0], Sorted(s[1..], k1), k1, k2);
    }
  }

  lemma {:induction false} InsertsAgree<T(!new)>(x: T, s: seq<T>, k1: T -> seq<int>, k2: T -> seq<int>)
    requires forall y :: y in s ==> (LexLe(k1(x), k1(y)) <==> LexLe(k2(x), k2(y)))
    ensures Insert(x, s, k1) == Insert(x, s, k2)
  {
    if s != [] {
      assert s[0] in s;
      InsertsAgree(x, s[1..], k1, k2);
    }
  }

  /** A sequence repeats nothing exactly when nothing is in its multiset twice. */
  lemma {:induction false} NoDuplicatesOnce<T>(s: seq<T>)
    ensures NoDuplicates(s) <==> forall x :: x in s ==> multiset(s)[x] == 1
  {
    if s != [] {
      var rest := s[1..];
      assert s == [s[0]] + rest;
      NoDuplicatesOnce(rest);
      assert NoDuplicates(s) <==> s[0] !in rest && NoDuplicates(rest);
      assert forall x :: x in s <==> x == s[0] || x in rest;
      assert multiset(s)[s[0]] == 1 + multiset(rest)[s[0]];
    }
  }

  lemma SortedNoDuplicates<T>(s: seq<T>, key: T -> seq<int>)
    requires NoDuplicates(s)
    ensures NoDuplicates(Sorted(s, key))
  {
    SortedIsSort(s, key);
    NoDuplicatesOnce(s);
    NoDuplicatesOnce(Sorted(s, key));
  }
}

/** Strict total orders, string order, and sorting: whatever the order in which
    a set of distinct things was met, its sorted list is one list. */
module Order {

  /** The order `<` gives strings. */
  predicate StrLess(a: string, b: string) {
    if b == [] then false
    else if a == [] then true
    else if a[0] != b[0] then a[0] < b[0]
    else StrLess(a[1..], b[1..])
  }

  /** Where two strings first differ, or the first of them ends. */
  predicate FirstDiffers(a: string, b: string, k: int) {
    0 <= k <= |a| && k < |b| && a[..k] == b[..k] && (k == |a| || a[k] != b[k])
  }

  /** The first such place decides: the string that has ended there, or has the lesser
      character, is the lesser. */
  lemma {:induction false} StrLessIff(a: string, b: string)
    ensures StrLess(a, b) <==> exists k :: FirstDiffers(a, b, k) && (k == |a| || a[k] < b[k])
  {
    if a != [] && b != [] && a[0] == b[0] {
      StrLessIff(a[1..], b[1..]);
      forall k | FirstDiffers(a[1..], b[1..], k)
        ensures FirstDiffers(a, b, k + 1)
      {
        assert a[..k + 1] == [a[0]] + a[1..][..k] && b[..k + 1] == [b[0]] + b[1..][..k];
      }
      forall k | FirstDiffers(a, b, k)
        ensures k > 0 && FirstDiffers(a[1..], b[1..], k - 1)
      {
        assert k > 0;
        assert a[1..][..k - 1] == a[..k][1..] && b[1..][..k - 1] == b[..k][1..];
      }
    } else if b != [] {
      assert a[..0] == b[..0];
      assert FirstDiffers(a, b, 0);
    }
  }

  lemma {:induction false} StrConnected(a: string, b: string)
    ensures a == b || StrLess(a, b) || StrLess(b, a)
    ensures !(StrLess(a, b) && StrLess(b, a))
    ensures !StrLess(a, a)
  {
    if a != [] {
      StrConnected(a[1..], a[1..]);
    }
    if a != [] && b != [] && a[0] == b[0] {
      StrConnected(a[1..], b[1..]);
      assert a == [a[0]] + a[1..] && b == [b[0]] + b[1..];
    }
  }

  lemma {:induction false} StrTransitive(a: string, b: string, c: string)
    requires StrLess(a, b) && StrLess(b, c)
    ensures StrLess(a, c)
  {
    if a != [] && a[0] == b[0] == c[0] {
      StrTransitive(a[1..], b[1..], c[1..]);
    }
  }

  ghost predicate StrictOrder<T(!new)>(less: (T, T) -> bool) {
    && (forall x :: !less(x, x))
    && (forall x, y :: x == y || less(x, y) || less(y, x))
    && (forall x, y, z :: less(x, y) && less(y, z) ==> less(x, z))
  }

  lemma StrLessIsStrict()
    ensures StrictOrder(StrLess)
  {
    forall x, y
      ensures !StrLess(x, x) && (x == y || StrLess(x, y) || StrLess(y, x))
    {
      StrConnected(x, y);
    }
    forall x, y, z | StrLess(x, y) && StrLess(y, z)
      ensures StrLess(x, z)
    {
      StrTransitive(x, y, z);
    }
  }

  /** Pairs of strings, by first and then by second. */
  predicate PairLess(a: (string, string), b: (string, string)) {
    if a.0 != b.0 then StrLess(a.0, b.0) else StrLess(a.1, b.1)
  }

  lemma PairLessIsStrict()
    ensures StrictOrder(PairLess)
  {
    forall x, y
      ensures !PairLess(x, x) && (x == y || PairLess(x, y) || PairLess(y, x))
    {
      StrConnected(x.0, y.0);
      StrConnected(x.1, y.1);
      StrConnected(x.1, x.1);
    }
    forall x, y, z | PairLess(x, y) && PairLess(y, z)
      ensures PairLess(x, z)
    {
      if x.0 == y.0 == z.0 {
        StrTransitive(x.1, y.1, z.1);
      } else if x.0 != y.0 && y.0 != z.0 {
        StrTransitive(x.0, y.0, z.0);
        StrConnected(x.0, y.0);
      }
    }
  }

  predicate Ascending<T>(s: seq<T>, less: (T, T) -> bool) {
    forall i, j :: 0 <= i < j < |s| ==> less(s[i], s[j])
  }

  predicate Distinct<T(==)>(s: seq<T>) {
    forall i, j :: 0 <= i < j < |s| ==> s[i] != s[j]
  }

  /** An ascending list is determined by what is in it. */
  lemma {:induction false} AscendingIsUnique<T(!new)>(s: seq<T>, t: seq<T>, less: (T, T) -> bool)
    requires StrictOrder(less) && Ascending(s, less) && Ascending(t, less)
    requires forall x :: x in s <==> x in t
    ensures s == t
  {
    if s == [] {
      assert forall i :: 0 <= i < |t| ==> t[i] in t;
    } else {
      assert s[0] in t && t[0] in s;
      assert s[0] == t[0];
      forall x
        ensures x in s[1..] <==> x in t[1..]
      {
        TailOf(s, x, less);
        TailOf(t, x, less);
      }
      AscendingIsUnique(s[1..], t[1..], less);
    }
  }

  lemma TailOf<T(!new)>(s: seq<T>, x: T, less: (T, T) -> bool)
    requires StrictOrder(less) && Ascending(s, less) && s != []
    ensures x in s[1..] <==> x in s && x != s[0]
  {
    if x in s && x != s[0] {
      var i :| 0 <= i < |s| && s[i] == x;
      assert s[1..][i - 1] == x;
    }
    if x in s[1..] {
      var i :| 0 <= i < |s[1..]| && s[1..][i] == x;
      assert less(s[0], s[i + 1]);
    }
  }

  function Insert<T>(x: T, s: seq<T>, less: (T, T) -> bool): (r: seq<T>)
    ensures multiset(r) == multiset(s) + multiset{x}
  {
    if s == [] then [x]
    else if less(s[0], x) then
      assert s == [s[0]] + s[1..];
      [s[0]] + Insert(x, s[1..], less)
    else [x] + s
  }

  /** A stable sort. */
  function Sort<T>(s: seq<T>, less: (T, T) -> bool): (r: seq<T>)
    ensures multiset(r) == multiset(s) && |r| == |s|
  {
    if s == [] then []
    else
      assert s == [s[0]] + s[1..];
      var r := Insert(s[0], Sort(s[1..], less), less);
      assert |multiset(r)| == |multiset(s)|;
      r
  }

  lemma SameElements<T>(s: seq<T>, t: seq<T>, x: T)
    requires multiset(s) == multiset(t)
    ensures x in s <==> x in t
  {
    assert x in s <==> x in multiset(s);
    assert x in t <==> x in multiset(t);
  }

  lemma {:induction false} InsertAscending<T(!new)>(x: T, s: seq<T>, less: (T, T) -> bool)
    requires StrictOrder(less) && Ascending(s, less) && x !in s
    ensures Ascending(Insert(x, s, less), less)
  {
    if s != [] && less(s[0], x) {
      InsertAscending(x, s[1..], less);
      var r := Insert(x, s[1..], less);
      forall i | 0 <= i < |r|
        ensures less(s[0], r[i])
      {
        assert r[i] in multiset(r);
        assert r[i] == x || r[i] in s[1..];
      }
    }
  }

  /** Sorting distinct elements yields them in ascending order. */
  lemma {:induction false} SortAscends<T(!new)>(s: seq<T>, less: (T, T) -> bool)
    requires StrictOrder(less) && Distinct(s)
    ensures Ascending(Sort(s, less), less)
    ensures forall x :: x in Sort(s, less) <==> x in s
  {
    forall x
      ensures x in Sort(s, less) <==> x in s
    {
      SameElements(Sort(s, less), s, x);
    }
    if s != [] {
      SortAscends(s[1..], less);
      InsertAscending(s[0], Sort(s[1..], less), less);
    }
  }

  /** An order that may leave different things level, as a comparison of versions
      does. */
  ghost predicate WeakOrder<T(!new)>(less: (T, T) -> bool) {
    && (forall x, y :: less(x, y) ==> !less(y, x))
    && (forall x, y, z :: !less(x, y) && !less(y, z) ==> !less(x, z))
  }

  predicate InOrder<T>(s: seq<T>, less: (T, T) -> bool) {
    forall i, j :: 0 <= i < j < |s| ==> !less(s[j], s[i])
  }

  lemma {:induction false} InsertInOrder<T(!new)>(x: T, s: seq<T>, less: (T, T) -> bool)
    requires WeakOrder(less) && InOrder(s, less)
    ensures InOrder(Insert(x, s, less), less)
  {
    if s != [] && less(s[0], x) {
      InsertInOrder(x, s[1..], less);
      var r := Insert(x, s[1..], less);
      forall i | 0 <= i < |r|
        ensures !less(r[i], s[0])
      {
        assert r[i] in multiset(r);
        assert r[i] == x || r[i] in s[1..];
      }
    }
  }

  lemma {:induction false} SortInOrder<T(!new)>(s: seq<T>, less: (T, T) -> bool)
    requires WeakOrder(less)
    ensures InOrder(Sort(s, less), less)
  {
    if s != [] {
      SortInOrder(s[1..], less);
      InsertInOrder(s[0], Sort(s[1..], less), less);
    }
  }

  lemma StrictIsWeak<T(!new)>(less: (T, T) -> bool)
    requires StrictOrder(less)
    ensures WeakOrder(less)
  {
  }

  lemma WithoutFirst<T>(s: seq<T>)
    requires s != []
    ensures s == [s[0]] + s[1..]
    ensures multiset(s[1..]) == multiset(s) - multiset{s[0]}
  {
    assert s == [s[0]] + s[1..];
  }

  /** A list in order is determined by how often it holds each element. */
  lemma {:induction false} InOrderIsUnique<T(!new)>(s: seq<T>, t: seq<T>, less: (T, T) -> bool)
    requires StrictOrder(less) && InOrder(s, less) && InOrder(t, less)
    requires multiset(s) == multiset(t)
    ensures s == t
  {
    assert |multiset(s)| == |multiset(t)|;
    if s != [] {
      SameElements(s, t, s[0]);
      SameElements(s, t, t[0]);
      assert s[0] == t[0];
      WithoutFirst(s);
      WithoutFirst(t);
      InOrderIsUnique(s[1..], t[1..], less);
    }
  }
}

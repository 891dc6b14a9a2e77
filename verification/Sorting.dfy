/** Stable sorting by a caller-supplied `less`, and the facts the callers need of it. */
module Sorting {

  /** `less` orders like a Go comparison callback: irreflexive, transitive, and incomparability is transitive too. */
  ghost predicate StrictWeak<T(!new)>(less: (T, T) -> bool) {
    && (forall x :: !less(x, x))
    && (forall x, y, z :: less(x, y) && less(y, z) ==> less(x, z))
    && (forall x, y, z :: less(x, z) ==> less(x, y) || less(y, z))
  }

  ghost predicate Sorted<T>(less: (T, T) -> bool, s: seq<T>) {
    forall i, j :: 0 <= i < j < |s| ==> !less(s[j], s[i])
  }

  /** `less` tells every two different entries of `s` apart. */
  ghost predicate TotalOn<T(!new)>(less: (T, T) -> bool, s: seq<T>) {
    forall x, y :: x in s && y in s ==> x == y || less(x, y) || less(y, x)
  }

  function Filter<T(!new)>(s: seq<T>, keep: T -> bool): (r: seq<T>)
    ensures forall x :: x in r <==> x in s && keep(x)
  {
    if s == [] then []
    else if keep(s[0]) then [s[0]] + Filter(s[1..], keep)
    else Filter(s[1..], keep)
  }

  /** `x` goes in front of the first entry that is not strictly smaller. */
  function Insert<T>(less: (T, T) -> bool, x: T, s: seq<T>): seq<T> {
    if s == [] || !less(s[0], x) then [x] + s else [s[0]] + Insert(less, x, s[1..])
  }

  function Sort<T>(less: (T, T) -> bool, s: seq<T>): seq<T> {
    if s == [] then [] else Insert(less, s[0], Sort(less, s[1..]))
  }

  lemma {:induction false} InsertMultiset<T>(less: (T, T) -> bool, x: T, s: seq<T>)
    ensures multiset(Insert(less, x, s)) == multiset{x} + multiset(s)
  {
    if s != [] && less(s[0], x) {
      InsertMultiset(less, x, s[1..]);
      assert s == [s[0]] + s[1..];
    }
  }

  lemma {:induction false} InsertSorted<T(!new)>(less: (T, T) -> bool, x: T, s: seq<T>)
    requires StrictWeak(less) && Sorted(less, s)
    ensures Sorted(less, Insert(less, x, s))
  {
    if s == [] {
    } else if !less(s[0], x) {
      var head := s[0];
      forall y | y in s ensures !less(y, x) {
        assert less(y, x) ==> less(y, head) || less(head, x);
      }
    } else {
      var rest := Insert(less, x, s[1..]);
      InsertSorted(less, x, s[1..]);
      InsertMultiset(less, x, s[1..]);
      forall j | 0 <= j < |rest| ensures !less(rest[j], s[0]) {
        assert rest[j] in multiset(rest);
        assert rest[j] == x || rest[j] in s[1..];
        assert less(x, s[0]) && less(s[0], x) ==> less(x, x);
      }
    }
  }

  lemma {:induction false} SortMultiset<T>(less: (T, T) -> bool, s: seq<T>)
    ensures multiset(Sort(less, s)) == multiset(s)
    ensures |Sort(less, s)| == |s|
  {
    if s != [] {
      SortMultiset(less, s[1..]);
      InsertMultiset(less, s[0], Sort(less, s[1..]));
      assert s == [s[0]] + s[1..];
    }
    assert |multiset(Sort(less, s))| == |multiset(s)|;
  }

  /** A sorted list is its own sort. */
  lemma {:induction false} SortOfSorted<T>(less: (T, T) -> bool, s: seq<T>)
    requires Sorted(less, s)
    ensures Sort(less, s) == s
  {
    if s != [] {
      SortOfSorted(less, s[1..]);
      assert s == [s[0]] + s[1..];
    }
  }

  lemma {:induction false} SortSorted<T(!new)>(less: (T, T) -> bool, s: seq<T>)
    requires StrictWeak(less)
    ensures Sorted(less, Sort(less, s))
  {
    if s != [] {
      SortSorted(less, s[1..]);
      InsertSorted(less, s[0], Sort(less, s[1..]));
    }
  }

  /** Stability: the entries tied with `y` come out in the order they went in. */
  lemma {:induction false} SortStable<T(!new)>(less: (T, T) -> bool, s: seq<T>, y: T)
    requires StrictWeak(less)
    ensures var tied := (x: T) => !less(x, y) && !less(y, x);
            Filter(Sort(less, s), tied) == Filter(s, tied)
  {
    if s != [] {
      SortStable(less, s[1..], y);
      InsertStable(less, s[0], Sort(less, s[1..]), y);
    }
  }

  lemma {:induction false} InsertStable<T(!new)>(less: (T, T) -> bool, x: T, s: seq<T>, y: T)
    requires StrictWeak(less)
    ensures var tied := (z: T) => !less(z, y) && !less(y, z);
            Filter(Insert(less, x, s), tied) == if tied(x) then [x] + Filter(s, tied) else Filter(s, tied)
  {
    var tied := (z: T) => !less(z, y) && !less(y, z);
    if s == [] || !less(s[0], x) {
      assert ([x] + s)[1..] == s;
    } else {
      InsertStable(less, x, s[1..], y);
      assert ([s[0]] + Insert(less, x, s[1..]))[1..] == Insert(less, x, s[1..]);
      // s[0] < x, so at most one of the two is tied with y
      assert !(tied(x) && tied(s[0]));
    }
  }

  /** There is only one sorted arrangement of entries that `less` tells apart. */
  lemma {:induction false} SortedUnique<T(!new)>(less: (T, T) -> bool, s: seq<T>, t: seq<T>)
    requires Sorted(less, s) && Sorted(less, t) && TotalOn(less, s)
    requires multiset(s) == multiset(t)
    ensures s == t
  {
    assert |multiset(s)| == |s| && |multiset(t)| == |t|;
    if s != [] {
      SortedHead(less, s, t);
      TailMultiset(s);
      TailMultiset(t);
      SortedUnique(less, s[1..], t[1..]);
      assert s == [s[0]] + s[1..] && t == [t[0]] + t[1..];
    }
  }

  lemma TailMultiset<T>(s: seq<T>)
    requires s != []
    ensures multiset(s[1..]) == multiset(s) - multiset{s[0]}
  {
    assert s == [s[0]] + s[1..];
  }

  lemma TwicePresent<T>(s: seq<T>, i: nat, j: nat)
    requires i < j < |s| && s[i] == s[j]
    ensures multiset(s)[s[i]] >= 2
  {
    assert s == s[..j] + s[j..];
    assert s[i] in s[..j] && s[i] in s[j..];
    assert multiset(s) == multiset(s[..j]) + multiset(s[j..]);
  }

  /** Where to find, in a rearrangement `t` of `s`, the first entry of `s`; without it the rests still rearrange. */
  lemma FirstIn<T>(s: seq<T>, t: seq<T>) returns (j: nat)
    requires s != [] && multiset(s) == multiset(t)
    ensures j < |t| && t[j] == s[0] && |t| == |s|
    ensures t == t[..j] + ([t[j]] + t[j + 1..])
    ensures multiset(s[1..]) == multiset(t[..j] + t[j + 1..])
  {
    assert |multiset(s)| == |s| && |multiset(t)| == |t|;
    assert s[0] in multiset(t);
    j :| 0 <= j < |t| && t[j] == s[0];
    TailMultiset(s);
    assert t == t[..j] + ([t[j]] + t[j + 1..]);
  }

  lemma SortedHead<T(!new)>(less: (T, T) -> bool, s: seq<T>, t: seq<T>)
    requires Sorted(less, s) && Sorted(less, t) && TotalOn(less, s)
    requires s != [] && t != [] && multiset(s) == multiset(t)
    ensures s[0] == t[0]
  {
    assert s[0] in multiset(t) && t[0] in multiset(s);
    var j :| 0 <= j < |t| && t[j] == s[0];
    var i :| 0 <= i < |s| && s[i] == t[0];
    // t[0] < s[0] contradicts that s is sorted, s[0] < t[0] that t is
    var x, y := s[0], t[0];
    assert x == y || less(x, y) || less(y, x);
  }

  /** Sorting forgets the order they arrived in. */
  lemma SortPermutation<T(!new)>(less: (T, T) -> bool, s: seq<T>, t: seq<T>)
    requires StrictWeak(less) && TotalOn(less, s) && multiset(s) == multiset(t)
    ensures Sort(less, s) == Sort(less, t)
  {
    SortMultiset(less, s);
    SortMultiset(less, t);
    SortSorted(less, s);
    SortSorted(less, t);
    assert forall x :: x in Sort(less, s) ==> x in multiset(s);
    SortedUnique(less, Sort(less, s), Sort(less, t));
  }

  function Map<T, U>(s: seq<T>, f: T -> U): (r: seq<U>)
    ensures |r| == |s| && forall i :: 0 <= i < |s| ==> r[i] == f(s[i])
  {
    seq(|s|, i requires 0 <= i < |s| => f(s[i]))
  }

  lemma MapWithout<T, U>(t: seq<T>, j: nat, f: T -> U)
    requires j < |t|
    ensures multiset(Map(t, f)) == multiset{f(t[j])} + multiset(Map(t[..j] + t[j + 1..], f))
  {
    var m := Map(t, f);
    assert Map(t[..j] + t[j + 1..], f) == m[..j] + m[j + 1..];
    assert m == m[..j] + [m[j]] + m[j + 1..];
  }

  lemma MapFirst<T, U>(s: seq<T>, f: T -> U)
    requires s != []
    ensures multiset(Map(s, f)) == multiset{f(s[0])} + multiset(Map(s[1..], f))
  {
    assert Map(s, f) == [f(s[0])] + Map(s[1..], f);
  }

  /** Applying a function entry by entry keeps rearrangements rearrangements. */
  lemma {:induction false} MapPermutation<T, U>(s: seq<T>, t: seq<T>, f: T -> U)
    requires multiset(s) == multiset(t)
    ensures multiset(Map(s, f)) == multiset(Map(t, f))
  {
    if s == [] {
      assert |multiset(t)| == |t|;
    } else {
      var j := FirstIn(s, t);
      MapPermutation(s[1..], t[..j] + t[j + 1..], f);
      MapWithout(t, j, f);
      MapFirst(s, f);
    }
  }

  lemma Associative<T>(a: seq<T>, b: seq<T>, c: seq<T>)
    ensures a + (b + c) == (a + b) + c
  {
  }

  lemma FilterOne<T(!new)>(x: T, keep: T -> bool)
    ensures Filter([x], keep) == if keep(x) then [x] else []
  {
  }

  lemma {:induction false} FilterAppend<T(!new)>(s: seq<T>, t: seq<T>, keep: T -> bool)
    ensures Filter(s + t, keep) == Filter(s, keep) + Filter(t, keep)
  {
    if s == [] {
      assert s + t == t;
    } else {
      FilterAppend(s[1..], t, keep);
      assert (s + t)[1..] == s[1..] + t;
    }
  }

  lemma FilterNext<T(!new)>(s: seq<T>, k: nat, keep: T -> bool)
    requires k < |s|
    ensures Filter(s[..k + 1], keep) == Filter(s[..k], keep) + if keep(s[k]) then [s[k]] else []
  {
    assert s[..k + 1] == s[..k] + [s[k]];
    FilterAppend(s[..k], [s[k]], keep);
    FilterOne(s[k], keep);
  }

  lemma {:induction false} FilterAll<T(!new)>(s: seq<T>, keep: T -> bool)
    ensures |Filter(s, keep)| <= |s|
    ensures |Filter(s, keep)| == |s| ==> Filter(s, keep) == s
  {
    if s != [] { FilterAll(s[1..], keep); }
  }

  lemma {:induction false} FilterNone<T(!new)>(s: seq<T>, keep: T -> bool)
    requires forall i :: 0 <= i < |s| ==> !keep(s[i])
    ensures Filter(s, keep) == []
  {
    if s != [] { FilterNone(s[1..], keep); }
  }

  lemma FilterMiddle<T(!new)>(a: seq<T>, x: T, c: seq<T>, keep: T -> bool)
    ensures multiset(Filter(a + ([x] + c), keep)) == multiset(Filter([x], keep)) + multiset(Filter(a + c, keep))
  {
    FilterAppend(a, [x] + c, keep);
    FilterAppend([x], c, keep);
    FilterAppend(a, c, keep);
  }

  /** What a filter lets through does not depend on the order. */
  lemma {:induction false} FilterPermutation<T(!new)>(s: seq<T>, t: seq<T>, keep: T -> bool)
    requires multiset(s) == multiset(t)
    ensures multiset(Filter(s, keep)) == multiset(Filter(t, keep))
  {
    if s == [] {
      assert |multiset(t)| == |t|;
    } else {
      var j := FirstIn(s, t);
      FilterPermutation(s[1..], t[..j] + t[j + 1..], keep);
      FilterMiddle(t[..j], t[j], t[j + 1..], keep);
      assert s == [s[0]] + s[1..];
      FilterAppend([s[0]], s[1..], keep);
    }
  }

  /** Sorting by a key and then taking the keys is sorting the keys. */
  lemma {:induction false} SortProjects<T, U>(byKey: (T, T) -> bool, less: (U, U) -> bool, s: seq<T>, key: T -> U)
    requires forall x, y :: x in s && y in s ==> byKey(x, y) == less(key(x), key(y))
    ensures Map(Sort(byKey, s), key) == Sort(less, Map(s, key))
  {
    if s != [] {
      SortProjects(byKey, less, s[1..], key);
      var sorted := Sort(byKey, s[1..]);
      SortMultiset(byKey, s[1..]);
      forall y | y in sorted ensures byKey(y, s[0]) == less(key(y), key(s[0])) { assert y in multiset(s[1..]); }
      InsertProjects(byKey, less, s[0], sorted, key);
      assert Map(s, key)[1..] == Map(s[1..], key);
    }
  }

  lemma {:induction false} InsertProjects<T, U>(byKey: (T, T) -> bool, less: (U, U) -> bool, x: T, s: seq<T>, key: T -> U)
    requires forall y :: y in s ==> byKey(y, x) == less(key(y), key(x))
    ensures Map(Insert(byKey, x, s), key) == Insert(less, key(x), Map(s, key))
  {
    var keys := Map(s, key);
    if s == [] || !byKey(s[0], x) {
      assert Map([x] + s, key) == [key(x)] + keys;
    } else {
      InsertProjects(byKey, less, x, s[1..], key);
      assert keys[1..] == Map(s[1..], key);
      assert Map([s[0]] + Insert(byKey, x, s[1..]), key) == [keys[0]] + Map(Insert(byKey, x, s[1..]), key);
    }
  }
}

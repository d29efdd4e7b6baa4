/**
 * Sorting by a comparator, as `Array.prototype.sort` does it: stable, for any strict weak order.
 * When distinct elements always compare, the result depends on the set of elements only.
 */
module Ordering {

  ghost predicate Irreflexive<T(!new)>(less: (T, T) -> bool) {
    forall a :: !less(a, a)
  }

  ghost predicate Transitive<T(!new)>(less: (T, T) -> bool) {
    forall a, b, c :: less(a, b) && less(b, c) ==> less(a, c)
  }

  /** Incomparability is transitive: whatever lies strictly between a and c is told apart from one of them. */
  ghost predicate Weak<T(!new)>(less: (T, T) -> bool) {
    forall a, b, c :: less(a, c) ==> less(a, b) || less(b, c)
  }

  ghost predicate StrictWeak<T(!new)>(less: (T, T) -> bool) {
    Irreflexive(less) && Transitive(less) && Weak(less)
  }

  ghost predicate StrictTotal<T(!new)>(less: (T, T) -> bool) {
    Irreflexive(less) && Transitive(less) && forall a, b :: a != b ==> less(a, b) || less(b, a)
  }

  ghost predicate Sorted<T>(less: (T, T) -> bool, s: seq<T>) {
    forall i, j :: 0 <= i < j < |s| ==> !less(s[j], s[i])
  }

  ghost predicate StrictlySorted<T>(less: (T, T) -> bool, s: seq<T>) {
    forall i, j :: 0 <= i < j < |s| ==> less(s[i], s[j])
  }

  ghost predicate Distinct<T>(s: seq<T>) {
    forall i, j :: 0 <= i < j < |s| ==> s[i] != s[j]
  }

  /** Any two different elements of the sequence compare. */
  ghost predicate Separates<T>(less: (T, T) -> bool, s: seq<T>) {
    forall a, b :: a in s && b in s && a != b ==> less(a, b) || less(b, a)
  }

  /** Puts `x` in front of everything it is not greater than: sorting from the right stays stable. */
  function Insert<T>(less: (T, T) -> bool, x: T, s: seq<T>): (r: seq<T>)
    ensures multiset(r) == multiset(s) + multiset{x}
    ensures |r| == |s| + 1
  {
    if s == [] || !less(s[0], x) then [x] + s
    else
      assert s == [s[0]] + s[1..];
      [s[0]] + Insert(less, x, s[1..])
  }

  function Sort<T>(less: (T, T) -> bool, s: seq<T>): (r: seq<T>)
    ensures multiset(r) == multiset(s)
    ensures |r| == |s|
  {
    if s == [] then [] else
      assert s == [s[0]] + s[1..];
      Insert(less, s[0], Sort(less, s[1..]))
  }

  lemma SameElements<T>(s: seq<T>, t: seq<T>)
    requires multiset(s) == multiset(t)
    ensures forall x :: x in s <==> x in t
    ensures |s| == |t|
  {
    assert forall x :: x in s <==> x in multiset(s);
    assert |multiset(s)| == |s| && |multiset(t)| == |t|;
  }

  lemma SortElements<T>(less: (T, T) -> bool, s: seq<T>)
    ensures forall x :: x in Sort(less, s) <==> x in s
  {
    SameElements(Sort(less, s), s);
  }

  lemma {:induction false} InsertSorts<T(!new)>(less: (T, T) -> bool, x: T, s: seq<T>)
    requires StrictWeak(less) && Sorted(less, s)
    ensures Sorted(less, Insert(less, x, s))
  {
    var r := Insert(less, x, s);
    if s == [] || !less(s[0], x) {
      forall i, j | 0 <= i < j < |r| ensures !less(r[j], r[i]) {
        if i == 0 && j > 1 {
          assert !less(s[j - 1], s[0]);
        }
      }
    } else {
      InsertSorts(less, x, s[1..]);
      var rest := Insert(less, x, s[1..]);
      forall j | 0 <= j < |rest| ensures !less(rest[j], s[0]) {
        assert rest[j] in multiset(rest);
        if rest[j] != x {
          assert rest[j] in s[1..];
        }
      }
    }
  }

  lemma {:induction false} SortSorts<T(!new)>(less: (T, T) -> bool, s: seq<T>)
    requires StrictWeak(less)
    ensures Sorted(less, Sort(less, s))
  {
    if s != [] {
      SortSorts(less, s[1..]);
      InsertSorts(less, s[0], Sort(less, s[1..]));
    }
  }

  /** Distinctness is a matter of the multiset alone. */
  lemma {:induction false} DistinctByCounts<T>(s: seq<T>)
    ensures Distinct(s) <==> forall x :: multiset(s)[x] <= 1
  {
    if s != [] {
      var front, last := s[..|s| - 1], s[|s| - 1];
      assert s == front + [last];
      DistinctByCounts(front);
      if Distinct(s) {
        assert last !in front;
        assert Distinct(front);
        forall x ensures multiset(s)[x] <= 1 {
          assert last !in multiset(front);
        }
      } else {
        var i, j :| 0 <= i < j < |s| && s[i] == s[j];
        if j == |s| - 1 {
          assert front[i] in multiset(front);
          assert multiset(s)[last] >= 2;
        } else {
          assert front[i] == front[j];
          var x :| multiset(front)[x] > 1;
          assert multiset(s)[x] > 1;
        }
      }
    }
  }

  /** Distinct elements that all compare are sorted strictly. */
  lemma SortIsStrict<T(!new)>(less: (T, T) -> bool, s: seq<T>)
    requires StrictWeak(less) && Distinct(s) && Separates(less, s)
    ensures StrictlySorted(less, Sort(less, s))
  {
    var r := Sort(less, s);
    SortSorts(less, s);
    SortElements(less, s);
    DistinctByCounts(s);
    DistinctByCounts(r);
    forall i, j | 0 <= i < j < |r| ensures less(r[i], r[j]) {
      assert r[i] in s && r[j] in s;
    }
  }

  /** A strictly sorted sequence is determined by its set of elements. */
  lemma {:induction false} StrictlySortedUnique<T(!new)>(less: (T, T) -> bool, s: seq<T>, t: seq<T>)
    requires Irreflexive(less) && Transitive(less)
    requires StrictlySorted(less, s) && StrictlySorted(less, t)
    requires forall x :: x in s <==> x in t
    ensures s == t
  {
    if s == [] {
      if t != [] { NoneLeft(t[0], s, t); }
    } else if t == [] {
      NoneLeft(s[0], t, s);
    } else {
      assert s[0] in t && t[0] in s;
      var i :| 0 <= i < |t| && t[i] == s[0];
      var j :| 0 <= j < |s| && s[j] == t[0];
      assert s[0] == t[0];
      forall x ensures x in s[1..] <==> x in t[1..] {
        TailMember(less, x, s);
        TailMember(less, x, t);
      }
      StrictlySortedUnique(less, s[1..], t[1..]);
      assert s == [s[0]] + s[1..] && t == [t[0]] + t[1..];
    }
  }

  lemma NoneLeft<T>(x: T, s: seq<T>, t: seq<T>)
    requires x in t && (x in s <==> x in t)
    ensures s != []
  {
  }

  lemma TailMember<T(!new)>(less: (T, T) -> bool, x: T, s: seq<T>)
    requires Irreflexive(less) && StrictlySorted(less, s) && s != []
    ensures x in s[1..] <==> x in s && x != s[0]
  {
  }

  /** Permuting the input of a sort changes nothing when its elements are distinct and all compare. */
  lemma {:induction false} SortIgnoresInputOrder<T(!new)>(less: (T, T) -> bool, s: seq<T>, t: seq<T>)
    requires StrictWeak(less) && Distinct(s) && Separates(less, s)
    requires multiset(s) == multiset(t)
    ensures Sort(less, s) == Sort(less, t)
  {
    SameElements(s, t);
    DistinctByCounts(s);
    DistinctByCounts(t);
    SortIsStrict(less, s);
    SortIsStrict(less, t);
    SortElements(less, s);
    SortElements(less, t);
    StrictlySortedUnique(less, Sort(less, s), Sort(less, t));
  }
}

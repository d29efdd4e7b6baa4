/** Filtering, first occurrences and grouping of sequences, read left to right as loops read them. */
module Seqs {

  function Filter<T(!new)>(keep: T -> bool, s: seq<T>): (r: seq<T>)
    ensures forall x {:trigger x in r} :: x in r <==> x in s && keep(x)
    ensures |r| <= |s|
  {
    if s == [] then [] else
      var front, last := s[..|s| - 1], s[|s| - 1];
      assert s == front + [last];
      Filter(keep, front) + if keep(last) then [last] else []
  }

  function Map<T, R>(f: T -> R, s: seq<T>): (r: seq<R>)
    ensures |r| == |s| && forall i :: 0 <= i < |s| ==> r[i] == f(s[i])
  {
    seq(|s|, i requires 0 <= i < |s| => f(s[i]))
  }

  /** The different elements in the order in which they first occur: what a JavaScript `Set` keeps. */
  function Firsts<T(==,!new)>(s: seq<T>): (r: seq<T>)
    ensures forall x {:trigger x in r} :: x in r <==> x in s
    ensures forall i, j :: 0 <= i < j < |r| ==> r[i] != r[j]
    ensures |r| <= |s|
  {
    if s == [] then [] else
      var front, last := s[..|s| - 1], s[|s| - 1];
      assert s == front + [last];
      var r := Firsts(front);
      if last in r then r else r + [last]
  }

  lemma ConcatSnoc<T>(a: seq<T>, b: seq<T>)
    requires b != []
    ensures a + b == (a + b[..|b| - 1]) + [b[|b| - 1]]
  {
  }

  lemma MapSnoc<T, R>(f: T -> R, s: seq<T>, x: T)
    ensures Map(f, s + [x]) == Map(f, s) + [f(x)]
  {
  }

  lemma MapConcat<T, R>(f: T -> R, s: seq<T>, t: seq<T>)
    ensures Map(f, s + t) == Map(f, s) + Map(f, t)
  {
  }

  lemma MapUpdate<T, R>(f: T -> R, s: seq<T>, i: nat, x: T)
    requires i < |s|
    ensures Map(f, s[i := x]) == Map(f, s)[i := f(x)]
  {
  }

  lemma FilterSnoc<T(!new)>(keep: T -> bool, s: seq<T>, x: T)
    ensures Filter(keep, s + [x]) == Filter(keep, s) + if keep(x) then [x] else []
  {
    assert (s + [x])[..|s|] == s;
  }

  lemma FirstsSnoc<T(!new)>(s: seq<T>, x: T)
    ensures Firsts(s + [x]) == if x in s then Firsts(s) else Firsts(s) + [x]
  {
    assert (s + [x])[..|s|] == s;
  }

  lemma {:induction false} FirstsPrefix<T(!new)>(s: seq<T>, i: nat)
    requires i <= |s|
    ensures |Firsts(s[..i])| <= |Firsts(s)| && Firsts(s)[..|Firsts(s[..i])|] == Firsts(s[..i])
    decreases |s|
  {
    if i == |s| {
      assert s[..i] == s;
    } else {
      var front := s[..|s| - 1];
      assert front[..i] == s[..i];
      FirstsPrefix(front, i);
    }
  }

  function Elements<T(!new)>(s: seq<T>): set<T> { set x | x in s }

  lemma {:induction false} FirstsCount<T(!new)>(s: seq<T>)
    ensures |Firsts(s)| == |Elements(s)|
    decreases |s|
  {
    if s != [] {
      var front, last := s[..|s| - 1], s[|s| - 1];
      assert s == front + [last];
      FirstsCount(front);
      assert Elements(s) == Elements(front) + {last};
      if last in front {
        assert Elements(s) == Elements(front);
      } else {
        assert last !in Elements(front);
      }
    }
  }

  /** An element stands at the rank given by how many different elements occur before its first occurrence. */
  lemma FirstsRank<T(!new)>(s: seq<T>, i: nat)
    requires i < |s| && s[i] !in s[..i]
    ensures var rank := |Elements(s[..i])|; rank < |Firsts(s)| && Firsts(s)[rank] == s[i]
  {
    FirstsCount(s[..i]);
    assert s[..i + 1] == s[..i] + [s[i]];
    FirstsSnoc(s[..i], s[i]);
    FirstsPrefix(s, i + 1);
    assert Firsts(s)[..|Firsts(s[..i + 1])|][|Firsts(s[..i])|] == s[i];
  }

  lemma {:induction false} FilterConcat<T(!new)>(keep: T -> bool, s: seq<T>, t: seq<T>)
    ensures Filter(keep, s + t) == Filter(keep, s) + Filter(keep, t)
    decreases |t|
  {
    if t == [] {
      assert s + t == s;
    } else {
      FilterConcat(keep, s, t[..|t| - 1]);
      assert (s + t)[..|s + t| - 1] == s + t[..|t| - 1];
    }
  }

  lemma {:induction false} FilterAll<T(!new)>(keep: T -> bool, s: seq<T>)
    requires forall x <- s :: keep(x)
    ensures Filter(keep, s) == s
    decreases |s|
  {
    if s != [] {
      FilterAll(keep, s[..|s| - 1]);
      assert s[|s| - 1] in s;
      assert s == s[..|s| - 1] + [s[|s| - 1]];
    }
  }

  lemma {:induction false} FilterNone<T(!new)>(keep: T -> bool, s: seq<T>)
    requires forall x <- s :: !keep(x)
    ensures Filter(keep, s) == []
    decreases |s|
  {
    if s != [] {
      assert s[|s| - 1] in s;
      FilterNone(keep, s[..|s| - 1]);
    }
  }

  /** Only the member at `k` may pass. */
  lemma {:induction false} FilterOnly<T(!new)>(keep: T -> bool, s: seq<T>, k: nat)
    requires k < |s| && forall i :: 0 <= i < |s| && i != k ==> !keep(s[i])
    ensures Filter(keep, s) == if keep(s[k]) then [s[k]] else []
    decreases |s|
  {
    var front := s[..|s| - 1];
    if k == |s| - 1 {
      FilterNone(keep, front);
    } else {
      FilterOnly(keep, front, k);
    }
  }

  lemma FilterSuffix<T(!new)>(keep: T -> bool, s: seq<T>, n: nat)
    requires n <= |s| && (forall x <- s[..n] :: !keep(x)) && (forall x <- s[n..] :: keep(x))
    ensures Filter(keep, s) == s[n..]
  {
    FilterNone(keep, s[..n]);
    FilterAll(keep, s[n..]);
    FilterConcat(keep, s[..n], s[n..]);
    assert s == s[..n] + s[n..];
  }

  lemma {:induction false} FilterAgree<T(!new)>(p: T -> bool, q: T -> bool, s: seq<T>)
    requires forall x <- s :: p(x) <==> q(x)
    ensures Filter(p, s) == Filter(q, s)
    decreases |s|
  {
    if s != [] {
      assert s[|s| - 1] in s;
      FilterAgree(p, q, s[..|s| - 1]);
    }
  }

  /** Filtering twice keeps what passes both tests. */
  lemma {:induction false} FilterFilter<T(!new)>(p: T -> bool, q: T -> bool, both: T -> bool, s: seq<T>)
    requires forall x <- s :: both(x) <==> p(x) && q(x)
    ensures Filter(p, Filter(q, s)) == Filter(both, s)
    decreases |s|
  {
    if s != [] {
      var front, last := s[..|s| - 1], s[|s| - 1];
      assert s == front + [last];
      assert last in s;
      FilterFilter(p, q, both, front);
      if q(last) {
        FilterSnoc(p, Filter(q, front), last);
        assert Filter(q, s) == Filter(q, front) + [last];
      } else {
        assert Filter(q, s) == Filter(q, front);
      }
    }
  }

  lemma {:induction false} FilterCounts<T(!new)>(keep: T -> bool, s: seq<T>, x: T)
    ensures multiset(Filter(keep, s))[x] == if keep(x) then multiset(s)[x] else 0
    decreases |s|
  {
    if s != [] {
      var front, last := s[..|s| - 1], s[|s| - 1];
      assert s == front + [last];
      FilterCounts(keep, front, x);
    }
  }

  /** Filtering respects permutations. */
  lemma FilterPermutes<T(!new)>(keep: T -> bool, s: seq<T>, t: seq<T>)
    requires multiset(s) == multiset(t)
    ensures multiset(Filter(keep, s)) == multiset(Filter(keep, t))
  {
    forall x ensures multiset(Filter(keep, s))[x] == multiset(Filter(keep, t))[x] {
      FilterCounts(keep, s, x);
      FilterCounts(keep, t, x);
    }
  }

  // ---- folding ----

  function Fold<S, T>(next: (S, T) -> S, s: S, xs: seq<T>): S {
    if xs == [] then s else next(Fold(next, s, xs[..|xs| - 1]), xs[|xs| - 1])
  }

  lemma FoldSnoc<S, T>(next: (S, T) -> S, s: S, xs: seq<T>, x: T)
    ensures Fold(next, s, xs + [x]) == next(Fold(next, s, xs), x)
  {
    assert (xs + [x])[..|xs|] == xs;
  }

  lemma FoldNext<S, T>(next: (S, T) -> S, s: S, xs: seq<T>, i: nat)
    requires i < |xs|
    ensures Fold(next, s, xs[..i + 1]) == next(Fold(next, s, xs[..i]), xs[i])
  {
    assert xs[..i + 1][..i] == xs[..i];
  }

  /** What every step keeps, the whole fold keeps. */
  lemma {:induction false} FoldKeeps<S(!new), T(!new)>(
    next: (S, T) -> S, holds: (S, seq<T>) -> bool, s: S, before: seq<T>, xs: seq<T>)
    requires holds(s, before)
    requires forall t, us, x :: holds(t, us) ==> holds(next(t, x), us + [x])
    ensures holds(Fold(next, s, xs), before + xs)
    decreases |xs|
  {
    if xs == [] {
      assert before + xs == before;
    } else {
      var front, last := xs[..|xs| - 1], xs[|xs| - 1];
      FoldKeeps(next, holds, s, before, front);
      assert before + xs == before + front + [last];
    }
  }

  // ---- grouping ----

  function HasKey<T, K(==)>(key: T -> K, k: K): T -> bool { x => key(x) == k }

  /** The members with the given key, in order. */
  function Group<T(!new), K(==)>(key: T -> K, k: K, s: seq<T>): seq<T> { Filter(HasKey(key, k), s) }

  /** Grouping one more member: the groups and keys a loop over a `Map` holds next. */
  lemma GroupSnoc<T(!new), K(!new)>(key: T -> K, s: seq<T>, x: T)
    ensures Firsts(Map(key, s + [x])) == if key(x) in Firsts(Map(key, s)) then Firsts(Map(key, s))
                                         else Firsts(Map(key, s)) + [key(x)]
    ensures forall k :: Group(key, k, s + [x]) == Group(key, k, s) + if key(x) == k then [x] else []
    ensures key(x) !in Firsts(Map(key, s)) ==> Group(key, key(x), s) == []
  {
    assert Map(key, s + [x]) == Map(key, s) + [key(x)];
    FirstsSnoc(Map(key, s), key(x));
    forall k ensures Group(key, k, s + [x]) == Group(key, k, s) + if key(x) == k then [x] else [] {
      FilterSnoc(HasKey(key, k), s, x);
    }
    if key(x) !in Firsts(Map(key, s)) {
      forall y | y in s ensures key(y) != key(x) {
        var i :| 0 <= i < |s| && s[i] == y;
        assert Map(key, s)[i] == key(y);
      }
      FilterNone(HasKey(key, key(x)), s);
    }
  }

  /** Every key that occurs has an inhabited group. */
  lemma GroupsInhabited<T(!new), K(!new)>(key: T -> K, s: seq<T>, i: nat)
    requires i < |Firsts(Map(key, s))|
    ensures Group(key, Firsts(Map(key, s))[i], s) != []
  {
    var k := Firsts(Map(key, s))[i];
    assert k in Firsts(Map(key, s));
    var j :| 0 <= j < |s| && key(s[j]) == k;
    assert s[j] in Group(key, k, s);
  }

  /** A `Map` from key to group, with its keys in the order of their insertion. */
  datatype Table<K, T> = Table(keys: seq<K>, groups: map<K, seq<T>>)

  ghost predicate Grouped<T(!new), K(!new)>(key: T -> K, t: Table<K, T>, s: seq<T>) {
    && t.keys == Firsts(Map(key, s))
    && (forall k :: k in t.groups <==> k in t.keys)
    && (forall k :: k in t.groups ==> t.groups[k] == Group(key, k, s))
  }

  /** `map.set(key, [...(map.get(key) || []), x])` */
  function AddMember<T, K(==)>(key: T -> K): (Table<K, T>, T) -> Table<K, T> {
    (t: Table<K, T>, x: T) =>
      var k := key(x);
      Table(if k in t.groups then t.keys else t.keys + [k],
            t.groups[k := (if k in t.groups then t.groups[k] else []) + [x]])
  }

  lemma {:induction false} MemberGrouped<T(!new), K(!new)>(key: T -> K, t: Table<K, T>, s: seq<T>, x: T)
    requires Grouped(key, t, s)
    ensures Grouped(key, AddMember(key)(t, x), s + [x])
  {
    GroupSnoc(key, s, x);
    var next := AddMember(key)(t, x);
    assert next.keys == Firsts(Map(key, s + [x]));
    forall k | k in next.groups ensures next.groups[k] == Group(key, k, s + [x]) {
    }
  }

  lemma {:induction false} FoldGroups<T(!new), K(!new)>(key: T -> K, s: seq<T>)
    ensures Grouped(key, Fold(AddMember(key), Table([], map[]), s), s)
  {
    var holds := (t: Table<K, T>, us: seq<T>) => Grouped(key, t, us);
    forall t, us, x | holds(t, us) ensures holds(AddMember(key)(t, x), us + [x]) {
      MemberGrouped(key, t, us, x);
    }
    var nothing: Table<K, T> := Table([], map[]);
    assert holds(nothing, []);
    FoldKeeps(AddMember(key), holds, nothing, [], s);
    assert [] + s == s;
  }

  lemma GroupedValues<T(!new), K(!new)>(key: T -> K, t: Table<K, T>, s: seq<T>)
    requires Grouped(key, t, s)
    ensures t.keys == Firsts(Map(key, s))
    ensures forall i :: 0 <= i < |t.keys| ==> t.keys[i] in t.groups && t.groups[t.keys[i]] == Groups(key, t.keys, s)[i]
  {
  }

  /** Collects the members in a table, in one pass. */
  method CollectGroups<T(!new), K(==,!new)>(key: T -> K, s: seq<T>) returns (keys: seq<K>, values: seq<seq<T>>)
    ensures keys == Firsts(Map(key, s)) && values == Groups(key, keys, s)
  {
    var groups: map<K, seq<T>>;
    keys, groups := [], map[];
    for i := 0 to |s|
      invariant Table(keys, groups) == Fold(AddMember(key), Table([], map[]), s[..i])
    {
      FoldNext(AddMember(key), Table([], map[]), s, i);
      var k := key(s[i]);
      if k !in groups {
        keys := keys + [k];
      }
      groups := groups[k := (if k in groups then groups[k] else []) + [s[i]]];
    }
    assert s[..|s|] == s;
    FoldGroups(key, s);
    GroupedValues(key, Table(keys, groups), s);
    values := seq(|keys|, i requires 0 <= i < |keys| => groups[keys[i]]);
  }

  function Groups<T(!new), K(==)>(key: T -> K, ks: seq<K>, s: seq<T>): (gs: seq<seq<T>>)
    ensures |gs| == |ks| && forall i :: 0 <= i < |ks| ==> gs[i] == Group(key, ks[i], s)
  {
    seq(|ks|, i requires 0 <= i < |ks| => Group(key, ks[i], s))
  }

  function TotalLength<T>(gs: seq<seq<T>>): nat {
    if gs == [] then 0 else TotalLength(gs[..|gs| - 1]) + |gs[|gs| - 1]|
  }

  lemma {:induction false} EmptyGroups<T(!new), K>(key: T -> K, ks: seq<K>)
    ensures TotalLength(Groups(key, ks, [])) == 0
    decreases |ks|
  {
    if ks != [] {
      var gs := Groups(key, ks, []);
      EmptyGroups(key, ks[..|ks| - 1]);
      assert gs[..|ks| - 1] == Groups(key, ks[..|ks| - 1], []);
    }
  }

  lemma {:induction false} OneMoreMember<T(!new), K>(key: T -> K, ks: seq<K>, s: seq<T>, x: T)
    requires forall i, j :: 0 <= i < j < |ks| ==> ks[i] != ks[j]
    ensures TotalLength(Groups(key, ks, s + [x])) == TotalLength(Groups(key, ks, s)) + if key(x) in ks then 1 else 0
    decreases |ks|
  {
    if ks != [] {
      var front, last := ks[..|ks| - 1], ks[|ks| - 1];
      OneMoreMember(key, front, s, x);
      assert ks == front + [last];
      assert Groups(key, ks, s + [x])[..|front|] == Groups(key, front, s + [x]);
      assert Groups(key, ks, s)[..|front|] == Groups(key, front, s);
      FilterSnoc(HasKey(key, last), s, x);
    }
  }

  /** Grouping loses and repeats no member. */
  lemma {:induction false} GroupsConserve<T(!new), K>(key: T -> K, ks: seq<K>, s: seq<T>)
    requires forall i, j :: 0 <= i < j < |ks| ==> ks[i] != ks[j]
    requires forall x <- s :: key(x) in ks
    ensures TotalLength(Groups(key, ks, s)) == |s|
    decreases |s|
  {
    if s == [] {
      EmptyGroups(key, ks);
    } else {
      var front, last := s[..|s| - 1], s[|s| - 1];
      assert s == front + [last];
      assert last in s;
      GroupsConserve(key, ks, front);
      OneMoreMember(key, ks, front, last);
    }
  }
}

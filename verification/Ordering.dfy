/** Three-way comparison in the style of `std::cmp::Ordering`, and sorting by a comparison. */
module Ordering {

  datatype Ordering = Less | Equal | Greater {
    function ThenWith(next: Ordering): Ordering {
      if Equal? then next else this
    }
    function Reverse(): Ordering {
      match this case Less => Greater case Equal => Equal case Greater => Less
    }
  }

  function CompareInt(a: int, b: int): Ordering {
    if a < b then Less else if a == b then Equal else Greater
  }

  /** Lexicographic comparison; a proper prefix is smaller. */
  function CompareSeq(a: seq<int>, b: seq<int>): Ordering {
    if a == [] then (if b == [] then Equal else Less)
    else if b == [] then Greater
    else if a[0] != b[0] then CompareInt(a[0], b[0])
    else CompareSeq(a[1..], b[1..])
  }

  /** `a` is a proper prefix of `b`, or smaller at the first place where they differ. */
  ghost predicate BytesBefore(a: seq<int>, b: seq<int>) {
    a < b || exists i :: 0 <= i < |a| && i < |b| && a[..i] == b[..i] && a[i] < b[i]
  }

  lemma {:induction false} CompareSeqMeaning(a: seq<int>, b: seq<int>)
    ensures CompareSeq(a, b) == Less <==> BytesBefore(a, b)
    decreases |a|
  {
    if a != [] && b != [] && a[0] == b[0] {
      CompareSeqMeaning(a[1..], b[1..]);
      BytesBeforeTail(a, b);
    } else if a != [] && b != [] && a[0] < b[0] {
      assert a[..0] == b[..0];
    }
  }

  lemma {:induction false} BytesBeforeTail(a: seq<int>, b: seq<int>)
    requires a != [] && b != [] && a[0] == b[0]
    ensures BytesBefore(a, b) <==> BytesBefore(a[1..], b[1..])
  {
    var s, t := a[1..], b[1..];
    assert a == [a[0]] + s && b == [b[0]] + t;
    if i :| 0 <= i < |a| && i < |b| && a[..i] == b[..i] && a[i] < b[i] {
      assert s[..i - 1] == a[..i][1..] && t[..i - 1] == b[..i][1..];
    }
    if i :| 0 <= i < |s| && i < |t| && s[..i] == t[..i] && s[i] < t[i] {
      assert a[..i + 1] == [a[0]] + s[..i] && b[..i + 1] == [b[0]] + t[..i];
      assert a[i + 1] < b[i + 1];
    }
    if s < t {
      assert a <= b;
    }
    if a < b {
      assert s <= t;
    }
  }

  /** How the comparison of `a` with `c` must follow from those of `a` with `b` and `b` with `c`. */
  predicate Chains(ab: Ordering, bc: Ordering, ac: Ordering) {
    ab != Greater && bc != Greater ==> ac == if ab == Equal then bc else Less
  }

  /** `CompareSeq` is a total order whose ties are equalities. */
  lemma {:induction false} CompareSeqOrder(a: seq<int>, b: seq<int>, c: seq<int>)
    ensures CompareSeq(a, b) == Equal <==> a == b
    ensures CompareSeq(b, a) == CompareSeq(a, b).Reverse()
    ensures Chains(CompareSeq(a, b), CompareSeq(b, c), CompareSeq(a, c))
    decreases |a|
  {
    if a != [] && b != [] && a[0] == b[0] {
      assert a == [a[0]] + a[1..] && b == [b[0]] + b[1..];
      CompareSeqOrder(a[1..], b[1..], if c == [] then [] else c[1..]);
    }
  }

  ghost predicate TotalOrder<T(!new)>(cmp: (T, T) -> Ordering) {
    && (forall a, b :: cmp(a, b) == Equal <==> a == b)
    && (forall a, b :: cmp(b, a) == cmp(a, b).Reverse())
    && (forall a, b, c :: cmp(a, b) != Greater && cmp(b, c) != Greater ==> cmp(a, c) != Greater)
  }

  /** Total and transitive; ties need not be equalities. */
  ghost predicate TotalPreorder<T(!new)>(cmp: (T, T) -> Ordering) {
    && (forall a, b :: cmp(b, a) == cmp(a, b).Reverse())
    && (forall a, b, c :: cmp(a, b) != Greater && cmp(b, c) != Greater ==> cmp(a, c) != Greater)
  }

  ghost predicate Sorted<T>(cmp: (T, T) -> Ordering, s: seq<T>) {
    forall i, j :: 0 <= i < j < |s| ==> cmp(s[i], s[j]) != Greater
  }

  /** Strictly ascending: sorted, and no two elements tie. */
  ghost predicate Ascending<T>(cmp: (T, T) -> Ordering, s: seq<T>) {
    forall i, j :: 0 <= i < j < |s| ==> cmp(s[i], s[j]) == Less
  }

  /** Stable insertion sort: the contract of `sort_by`. */
  function SortBy<T>(cmp: (T, T) -> Ordering, s: seq<T>): (r: seq<T>)
    ensures multiset(r) == multiset(s)
    ensures |r| == |s|
  {
    if s == [] then []
    else
      assert s == [s[0]] + s[1..];
      InsertBy(cmp, s[0], SortBy(cmp, s[1..]))
  }

  function InsertBy<T>(cmp: (T, T) -> Ordering, x: T, s: seq<T>): (r: seq<T>)
    ensures multiset(r) == multiset(s) + multiset{x}
    ensures |r| == |s| + 1
  {
    if s == [] then [x]
    else
      assert s == [s[0]] + s[1..];
      if cmp(x, s[0]) != Greater then [x] + s
      else [s[0]] + InsertBy(cmp, x, s[1..])
  }

  lemma {:induction false} SortedInsert<T(!new)>(cmp: (T, T) -> Ordering, x: T, s: seq<T>)
    requires TotalPreorder(cmp) && Sorted(cmp, s)
    ensures Sorted(cmp, InsertBy(cmp, x, s))
  {
    if s != [] && cmp(x, s[0]) == Greater {
      SortedInsert(cmp, x, s[1..]);
      var rest := InsertBy(cmp, x, s[1..]);
      forall j | 0 <= j < |rest| ensures cmp(s[0], rest[j]) != Greater {
        assert rest[j] in multiset(rest);
        assert rest[j] == x || rest[j] in s[1..];
      }
    }
  }

  lemma {:induction false} SortBySorts<T(!new)>(cmp: (T, T) -> Ordering, s: seq<T>)
    requires TotalPreorder(cmp)
    ensures Sorted(cmp, SortBy(cmp, s))
  {
    if s != [] {
      SortBySorts(cmp, s[1..]);
      SortedInsert(cmp, s[0], SortBy(cmp, s[1..]));
    }
  }

  lemma {:induction false} Uncons<T>(s: seq<T>)
    requires s != []
    ensures s == [s[0]] + s[1..]
    ensures multiset(s[1..]) == multiset(s) - multiset{s[0]}
    ensures s[0] in multiset(s)
  {
    assert s == [s[0]] + s[1..];
  }

  lemma {:induction false} SortedLeast<T(!new)>(cmp: (T, T) -> Ordering, s: seq<T>, x: T)
    requires TotalOrder(cmp) && Sorted(cmp, s) && x in multiset(s)
    ensures s != [] && cmp(s[0], x) != Greater
  {
    var i :| 0 <= i < |s| && s[i] == x;
  }

  /** A sorted arrangement of a multiset is unique. */
  lemma {:induction false} SortedUnique<T(!new)>(cmp: (T, T) -> Ordering, s: seq<T>, t: seq<T>)
    requires TotalOrder(cmp)
    requires Sorted(cmp, s) && Sorted(cmp, t)
    requires multiset(s) == multiset(t)
    ensures s == t
    decreases |s|
  {
    if s == [] {
      assert |multiset(t)| == |t|;
    } else {
      SameLeast(cmp, s, t);
      Uncons(s);
      Uncons(t);
      SortedUnique(cmp, s[1..], t[1..]);
    }
  }

  lemma {:induction false} SameLeast<T(!new)>(cmp: (T, T) -> Ordering, s: seq<T>, t: seq<T>)
    requires TotalOrder(cmp) && s != []
    requires Sorted(cmp, s) && Sorted(cmp, t)
    requires multiset(s) == multiset(t)
    ensures t != [] && s[0] == t[0]
  {
    assert s[0] in multiset(s);
    SortedLeast(cmp, t, s[0]);
    assert t[0] in multiset(t);
    SortedLeast(cmp, s, t[0]);
  }

  lemma {:induction false} SortByPermutation<T(!new)>(cmp: (T, T) -> Ordering, s: seq<T>, t: seq<T>)
    requires TotalOrder(cmp) && multiset(s) == multiset(t)
    ensures SortBy(cmp, s) == SortBy(cmp, t)
  {
    SortBySorts(cmp, s);
    SortBySorts(cmp, t);
    SortedUnique(cmp, SortBy(cmp, s), SortBy(cmp, t));
  }

  /** Two strictly ascending sequences with the same members are the same sequence. */
  lemma {:induction false} AscendingUnique<T(!new)>(cmp: (T, T) -> Ordering, s: seq<T>, t: seq<T>)
    requires TotalOrder(cmp)
    requires Ascending(cmp, s) && Ascending(cmp, t)
    requires forall x :: x in s <==> x in t
    ensures s == t
  {
    if s == [] {
      assert forall i | 0 <= i < |t| :: t[i] in s;
    } else {
      assert s[0] in t;
      assert t[0] in s;
      assert s[0] == t[0];
      forall x ensures x in s[1..] <==> x in t[1..] {
        assert s[0] !in s[1..] && t[0] !in t[1..];
        assert x in s <==> x == s[0] || x in s[1..] by { assert s == [s[0]] + s[1..]; }
        assert x in t <==> x == t[0] || x in t[1..] by { assert t == [t[0]] + t[1..]; }
      }
      AscendingUnique(cmp, s[1..], t[1..]);
      assert s == [s[0]] + s[1..] && t == [t[0]] + t[1..];
    }
  }
}

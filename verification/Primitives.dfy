/** Byte strings, hashes and the small wrapper types shared by every module. */
module Primitives {

  type byte = x: nat | x < 256
  type Bytes = seq<byte>

  /** Identity strings and server urls, compared byte by byte as Rust compares `str`. */
  type Text = Bytes

  const U64_LIMIT: nat := 0x1_0000_0000_0000_0000

  type u64 = x: nat | x < U64_LIMIT

  /** A SHA-256 digest. */
  type Hash = h: Bytes | |h| == 32 witness seq(32, _ => 0)

  datatype Option<+T> = None | Some(value: T)

  datatype Result<+T> = Ok(value: T) | Err

  /** Two different inputs with the same hash. Such pairs always exist, so no theorem assumes that
      they do not: where collision resistance matters, a function computes the colliding pair. */
  predicate Collision(sha: Bytes -> Hash, x: Bytes, y: Bytes) {
    x != y && sha(x) == sha(y)
  }

  lemma {:induction false} HeadIn<T>(s: seq<T>)
    ensures s == [] || s[0] in s
  {
  }

  function Filter<T(!new)>(p: T -> bool, s: seq<T>): (r: seq<T>)
    ensures forall x :: x in r <==> x in s && p(x)
  {
    if s == [] then []
    else if p(s[0]) then [s[0]] + Filter(p, s[1..])
    else Filter(p, s[1..])
  }

  lemma {:induction false} FilterNone<T(!new)>(p: T -> bool, s: seq<T>)
    requires forall x | x in s :: !p(x)
    ensures Filter(p, s) == []
  {
    if s != [] {
      FilterNone(p, s[1..]);
    }
  }

  function FilterMap<A, B>(f: A -> Option<B>, s: seq<A>): seq<B> {
    if s == [] then []
    else match f(s[0])
      case Some(y) => [y] + FilterMap(f, s[1..])
      case None => FilterMap(f, s[1..])
  }

  function Map<A, B>(f: A -> B, s: seq<A>): (r: seq<B>)
    ensures |r| == |s|
    ensures forall i | 0 <= i < |s| :: r[i] == f(s[i])
  {
    if s == [] then [] else [f(s[0])] + Map(f, s[1..])
  }

  lemma {:induction false} FilterMapMembers<A, B>(f: A -> Option<B>, s: seq<A>, y: B)
    ensures y in FilterMap(f, s) <==> exists x :: x in s && f(x) == Some(y)
  {
    if s != [] {
      FilterMapMembers(f, s[1..], y);
      assert s == [s[0]] + s[1..];
    }
  }

  lemma {:induction false} FilterMapConcat<A, B>(f: A -> Option<B>, s: seq<A>, t: seq<A>)
    ensures FilterMap(f, s + t) == FilterMap(f, s) + FilterMap(f, t)
  {
    if s == [] {
      assert s + t == t;
    } else {
      assert (s + t)[1..] == s[1..] + t;
      FilterMapConcat(f, s[1..], t);
    }
  }

  lemma {:induction false} FilterMapMiddle<A, B>(f: A -> Option<B>, a: seq<A>, x: A, b: seq<A>)
    ensures multiset(FilterMap(f, a + [x] + b)) == multiset(FilterMap(f, a + b)) + multiset(FilterMap(f, [x]))
  {
    var fa, fx, fb := FilterMap(f, a), FilterMap(f, [x]), FilterMap(f, b);
    FilterMapConcat(f, a, b);
    FilterMapConcat(f, a + [x], b);
    FilterMapConcat(f, a, [x]);
    assert multiset(fa + fx + fb) == multiset(fa) + multiset(fx) + multiset(fb);
    assert multiset(fa + fb) == multiset(fa) + multiset(fb);
  }

  lemma {:induction false} SplitAt<T>(t: seq<T>, x: T) returns (a: seq<T>, b: seq<T>)
    requires x in multiset(t)
    ensures t == a + [x] + b
    ensures multiset(a + b) == multiset(t) - multiset{x}
  {
    var i :| 0 <= i < |t| && t[i] == x;
    a, b := t[..i], t[i + 1..];
    assert t == a + [x] + b;
  }

  /** The surviving elements of a permuted input are a permutation of the surviving elements. */
  lemma {:induction false} FilterMapPermutes<A, B>(f: A -> Option<B>, s: seq<A>, t: seq<A>)
    requires multiset(s) == multiset(t)
    ensures multiset(FilterMap(f, s)) == multiset(FilterMap(f, t))
    decreases |s|
  {
    if s == [] {
      assert |multiset(t)| == |t|;
    } else {
      var a, b := SplitAt(s, s[0]);
      var c, d := SplitAt(t, s[0]);
      FilterMapMiddle(f, a, s[0], b);
      FilterMapMiddle(f, c, s[0], d);
      FilterMapPermutes(f, a + b, c + d);
    }
  }
}

/** List helpers the result store and the comparison views are built from: a
    list comprehension over every element, one with a condition, and the set of
    values a list takes. Each is defined on the prefix so that a loop that
    appends one element per step keeps it as its invariant. */
module Collections {
  import opened Wrappers

  /** `[f(x) for x in s]`. */
  function MapSeq<T, U>(s: seq<T>, f: T -> U): (r: seq<U>)
    ensures |r| == |s|
    ensures forall i :: 0 <= i < |s| ==> r[i] == f(s[i])
  {
    if s == [] then [] else MapSeq(s[..|s| - 1], f) + [f(s[|s| - 1])]
  }

  /** `[x for x in s if p(x)]`. */
  function Where<T(!new)>(s: seq<T>, p: T -> bool): (r: seq<T>)
    ensures |r| <= |s|
    ensures forall x :: x in r <==> x in s && p(x)
  {
    if s == [] then []
    else
      var n := |s| - 1;
      var rest := Where(s[..n], p);
      assert forall x :: x in s <==> x in s[..n] || x == s[n] by {
        assert s == s[..n] + [s[n]];
      }
      if p(s[n]) then rest + [s[n]] else rest
  }

  /** The comprehension keeps every element that passes as often as it occurs,
      and no other. */
  lemma {:induction false} WhereCounts<T(!new)>(s: seq<T>, p: T -> bool)
    ensures forall x :: multiset(Where(s, p))[x] == if p(x) then multiset(s)[x] else 0
  {
    if s != [] {
      var n := |s| - 1;
      WhereCounts(s[..n], p);
      assert s == s[..n] + [s[n]];
      assert multiset(s) == multiset(s[..n]) + multiset{s[n]};
    }
  }

  /** The comprehension keeps order: filtering a concatenation filters each part. */
  lemma {:induction false} WhereAppend<T(!new)>(a: seq<T>, b: seq<T>, p: T -> bool)
    ensures Where(a + b, p) == Where(a, p) + Where(b, p)
    decreases |b|
  {
    if b != [] {
      var n := |b| - 1;
      assert (a + b)[..|a + b| - 1] == a + b[..n];
      assert (a + b)[|a + b| - 1] == b[n];
      WhereAppend(a, b[..n], p);
    } else {
      assert a + b == a;
    }
  }

  /** `set(f(x) for x in s)`. */
  function Image<T, U>(s: seq<T>, f: T -> U): set<U>
  {
    if s == [] then {} else Image(s[..|s| - 1], f) + {f(s[|s| - 1])}
  }

  /** A value is in the image exactly when some element maps to it. */
  lemma {:induction false} ImageMembers<T, U>(s: seq<T>, f: T -> U)
    ensures forall y :: y in Image(s, f) <==> exists i :: 0 <= i < |s| && f(s[i]) == y
  {
    if s != [] {
      var n := |s| - 1;
      ImageMembers(s[..n], f);
      forall y
        ensures y in Image(s, f) <==> exists i :: 0 <= i < |s| && f(s[i]) == y
      {
        if exists i :: 0 <= i < |s| && f(s[i]) == y {
          var i :| 0 <= i < |s| && f(s[i]) == y;
          if i < n {
            assert s[..n][i] == s[i];
          }
        }
        if y in Image(s[..n], f) {
          var i :| 0 <= i < n && f(s[..n][i]) == y;
          assert s[i] == s[..n][i];
        }
      }
    }
  }

  /** The values `decode` yields for the elements of `s`, in order, the
      elements it rejects skipped (a `try` / `except` loop that appends). */
  function Decoded<D, T, E>(s: seq<D>, decode: D -> Result<T, E>): seq<T>
  {
    if s == [] then []
    else
      Decoded(s[..|s| - 1], decode) +
        match decode(s[|s| - 1])
        case Ok(x) => [x]
        case Err(_) => []
  }

  /** Decoding what was encoded gives back every value, in order, when each
      single value survives the round trip. */
  lemma {:induction false} DecodeEncoded<D, T, E>(xs: seq<T>, encode: T -> D, decode: D -> Result<T, E>)
    requires forall x :: decode(encode(x)) == Ok(x)
    ensures Decoded(MapSeq(xs, encode), decode) == xs
  {
    if xs != [] {
      var n := |xs| - 1;
      assert xs == xs[..n] + [xs[n]];
      var ds := MapSeq(xs, encode);
      assert ds[..n] == MapSeq(xs[..n], encode);
      DecodeEncoded(xs[..n], encode, decode);
    }
  }

  /** At most one value per element, and one for every element exactly when
      none is rejected. */
  lemma {:induction false} DecodedAtMost<D, T, E>(s: seq<D>, decode: D -> Result<T, E>)
    ensures |Decoded(s, decode)| <= |s|
    ensures |Decoded(s, decode)| == |s| <==> forall i :: 0 <= i < |s| ==> decode(s[i]).Ok?
  {
    if s != [] {
      var n := |s| - 1;
      DecodedAtMost(s[..n], decode);
      assert forall i :: 0 <= i < n ==> s[..n][i] == s[i];
    }
  }
}

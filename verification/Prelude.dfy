/** Shared vocabulary: bytes, failure types, sums and flattening of sequences. */
module Prelude {

  type byte = x: int | 0 <= x < 256

  type Bytes = seq<byte>

  type pos = x: nat | x > 0 witness 1

  const U16 := 0x1_0000
  const U32 := 0x1_0000_0000
  const U64 := 0x1_0000_0000_0000_0000

  datatype Option<+T> = None | Some(value: T)

  datatype Result<+T, +E> = Ok(value: T) | Err(error: E)

  function Min(a: int, b: int): int {
    if a <= b then a else b
  }

  function Max(a: int, b: int): int {
    if a >= b then a else b
  }

  /** Quotient rounded up, as in `(a + b - 1) / b`. */
  function CeilDiv(a: nat, b: nat): nat
    requires b > 0
  {
    (a + b - 1) / b
  }

  function Zeros(n: nat): (r: Bytes)
    ensures |r| == n
  {
    seq(n, _ => 0)
  }

  function Flatten<T>(ss: seq<seq<T>>): seq<T> {
    if ss == [] then [] else Flatten(ss[..|ss| - 1]) + ss[|ss| - 1]
  }

  lemma FlattenAppend<T>(ss: seq<seq<T>>, s: seq<T>)
    ensures Flatten(ss + [s]) == Flatten(ss) + s
  {
    assert (ss + [s])[..|ss|] == ss;
  }

  lemma MulMono(a: nat, b: nat, c: nat)
    requires a <= b
    ensures a * c <= b * c
  {}

  /** A product as repeated addition: `n` steps of `m`. */
  function Times(n: nat, m: nat): nat {
    if n == 0 then 0 else Times(n - 1, m) + m
  }

  lemma {:induction false} TimesIsProduct(n: nat, m: nat)
    ensures Times(n, m) == n * m
  {
    if n > 0 {
      TimesIsProduct(n - 1, m);
      assert n * m == (n - 1) * m + m;
    }
  }

  lemma {:induction false} TimesMono(a: nat, b: nat, m: nat)
    requires a <= b
    ensures Times(a, m) <= Times(b, m)
  {
    if a < b {
      TimesMono(a, b - 1, m);
    }
  }

  lemma DivModFacts(a: nat, b: nat)
    requires b > 0
    ensures (a / b) * b + a % b == a
    ensures 0 <= a % b < b
  {}

  lemma DivUnique(a: nat, b: nat, q: nat)
    requires q * b <= a < q * b + b
    ensures a / b == q
  {
    DivModFacts(a, b);
    var r := a / b;
    if r < q {
      MulMono(r + 1, q, b);
    } else if q < r {
      MulMono(q + 1, r, b);
    }
  }

  /** A set of naturals below `n` has at most `n` elements, and exactly `n` only when it is all of them. */
  lemma {:induction false} Pigeonhole(s: set<nat>, n: nat)
    requires forall x :: x in s ==> x < n
    ensures |s| <= n
    ensures |s| == n ==> forall x: nat :: x < n ==> x in s
  {
    if n == 0 {
      assert s == {};
    } else {
      var t := s - {n - 1};
      Pigeonhole(t, n - 1);
      if n - 1 in s {
        assert s == t + {n - 1};
      } else {
        assert t == s;
      }
    }
  }

  ghost predicate Distinct<T>(s: seq<T>) {
    forall i, j :: 0 <= i < j < |s| ==> s[i] != s[j]
  }

  lemma {:induction false} DistinctCard<T>(s: seq<T>)
    requires Distinct(s)
    ensures |(set x | x in s)| == |s|
  {
    if s != [] {
      var front := s[..|s| - 1];
      DistinctCard(front);
      assert (set x | x in s) == (set x | x in front) + {s[|s| - 1]};
    } else {
      assert (set x | x in s) == {};
    }
  }

  lemma SubsetCard<T>(a: set<T>, b: set<T>)
    requires a <= b
    ensures |a| <= |b|
  {
    assert b == a + (b - a);
  }

  /** The naturals below `n`. */
  ghost function Below(n: nat): (r: set<nat>)
    ensures |r| == n
    ensures forall x: nat :: x in r <==> x < n
  {
    if n == 0 then {} else Below(n - 1) + {n - 1}
  }
}

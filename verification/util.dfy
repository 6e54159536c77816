/** Small shared vocabulary: an optional value (Java's null), sums and counts
    over sequences, and the bounds of Java's 32-bit `int`. */
module Util {

  /** A value that may be absent: Java's `null`, `Optional.empty()`. */
  datatype Option<+T> = None | Some(value: T)

  /** `Integer.MAX_VALUE` and `Integer.MIN_VALUE`. */
  const INT_MAX: int := 0x7fff_ffff
  const INT_MIN: int := -0x8000_0000

  predicate IsInt32(n: int) {
    INT_MIN <= n <= INT_MAX
  }

  /** Java's narrowing of a `long` to an `int`: keep the low 32 bits, read
      them as two's complement. */
  function Wrap32(n: int): (r: int)
    ensures IsInt32(r)
    ensures IsInt32(n) ==> r == n
    ensures (r - n) % 0x1_0000_0000 == 0
  {
    var low := n % 0x1_0000_0000;
    if low <= INT_MAX then low else low - 0x1_0000_0000
  }

  /** Sum of a sequence of reals, accumulated left to right as a Java
      `for` loop does. */
  function Sum(s: seq<real>): real
  {
    if s == [] then 0.0 else Sum(s[..|s| - 1]) + s[|s| - 1]
  }

  /** Sum of a sequence of integers, accumulated left to right. */
  function SumInt(s: seq<int>): int
  {
    if s == [] then 0 else SumInt(s[..|s| - 1]) + s[|s| - 1]
  }

  lemma {:induction false} SumAppend(s: seq<real>, t: seq<real>)
    ensures Sum(s + t) == Sum(s) + Sum(t)
  {
    if t == [] {
      assert s + t == s;
    } else {
      assert (s + t)[..|s + t| - 1] == s + t[..|t| - 1];
      SumAppend(s, t[..|t| - 1]);
    }
  }

  /** The share of a whole `x` that a proportion `p` stands for. */
  function Portion(p: real, x: real): real {
    p * x
  }

  /** Every entry of `q` multiplied by `x`. */
  function Scaled(q: seq<real>, x: real): (r: seq<real>)
    ensures |r| == |q|
    decreases |q|
  {
    if q == [] then [] else Scaled(q[..|q| - 1], x) + [Portion(q[|q| - 1], x)]
  }

  lemma ScaledSnoc(q: seq<real>, e: real, x: real)
    ensures Scaled(q + [e], x) == Scaled(q, x) + [Portion(e, x)]
  {
    assert (q + [e])[..|q|] == q;
  }

  /** Scaling every entry scales the sum. */
  lemma {:induction false} SumScaled(q: seq<real>, x: real)
    ensures Sum(Scaled(q, x)) == Portion(Sum(q), x)
    decreases |q|
  {
    if q != [] {
      var n := |q| - 1;
      SumScaled(q[..n], x);
      Distribute(Sum(q[..n]), q[n], x);
    }
  }

  lemma Distribute(a: real, b: real, x: real)
    ensures Portion(a + b, x) == Portion(a, x) + Portion(b, x)
  {
  }

  /** Shares of a whole that add up to one share out all of it. */
  lemma SumScaledByUnit(q: seq<real>, x: real)
    requires Sum(q) == 1.0
    ensures Sum(Scaled(q, x)) == x
  {
    SumScaled(q, x);
    assert Portion(1.0, x) == x;
  }

  lemma {:induction false} SumIntAppend(s: seq<int>, t: seq<int>)
    ensures SumInt(s + t) == SumInt(s) + SumInt(t)
  {
    if t == [] {
      assert s + t == s;
    } else {
      assert (s + t)[..|s + t| - 1] == s + t[..|t| - 1];
      SumIntAppend(s, t[..|t| - 1]);
    }
  }

  /** Position of the first occurrence of `x` in `s`: how the exercises find
      a registered entity by its name or code (`stream().filter(...).findFirst()`). */
  function IndexOf<T(==)>(s: seq<T>, x: T): (r: Option<nat>)
    ensures r.Some? ==> r.value < |s| && s[r.value] == x && x !in s[..r.value]
    ensures r.None? <==> x !in s
  {
    if s == [] then None
    else if s[0] == x then Some(0)
    else match IndexOf(s[1..], x)
      case None => None
      case Some(k) =>
        assert s[..k + 1] == [s[0]] + s[1..][..k];
        Some(k + 1)
  }

  /** No value occurs twice. */
  predicate NoDuplicates<T(==)>(s: seq<T>) {
    forall i, j :: 0 <= i < j < |s| ==> s[i] != s[j]
  }

  lemma NoDuplicatesAppend<T>(s: seq<T>, x: T)
    requires NoDuplicates(s) && x !in s
    ensures NoDuplicates(s + [x])
  {
  }
}

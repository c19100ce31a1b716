/** Small vocabulary shared by the models. */
module Basics {

  datatype Option<+T> = None | Some(value: T)

  datatype Result<+T, +E> = Ok(value: T) | Err(error: E)

  function Min(a: nat, b: nat): nat {
    if a < b then a else b
  }

  function Max(a: nat, b: nat): nat {
    if a < b then b else a
  }

  /** The last `n` elements of `s`, or all of `s` when it is shorter. */
  function LastN<T>(s: seq<T>, n: nat): seq<T> {
    if |s| <= n then s else s[|s| - n..]
  }

  /** Cutting a sequence before extending and cutting it again changes nothing. */
  lemma LastNAfterAppend<T>(s: seq<T>, t: seq<T>, n: nat)
    ensures LastN(LastN(s, n) + t, n) == LastN(s + t, n)
  {
  }

  /** The same when the second cut has another length. */
  lemma LastNTwice<T>(s: seq<T>, t: seq<T>, m: nat, n: nat)
    requires m <= |s|
    ensures LastN(LastN(s, m) + t, n) == LastN(s + t, Min(m + |t|, n))
  {
    var tail := s[|s| - m..];
    assert LastN(s, m) == tail;
    assert tail + t == (s + t)[|s| - m..];
  }

  /** The values there are, in order. */
  function Somes<T>(xs: seq<Option<T>>): seq<T> {
    if xs == [] then []
    else
      var n := |xs| - 1;
      Somes(xs[..n]) + (if xs[n].Some? then [xs[n].value] else [])
  }

  lemma {:induction false} InSomes<T>(xs: seq<Option<T>>, x: T)
    ensures x in Somes(xs) <==> Some(x) in xs
  {
    if xs != [] {
      var n := |xs| - 1;
      InSomes(xs[..n], x);
      assert xs == xs[..n] + [xs[n]];
    }
  }

  lemma {:induction false} SomesConcat<T>(xs: seq<Option<T>>, ys: seq<Option<T>>)
    ensures Somes(xs + ys) == Somes(xs) + Somes(ys)
    decreases |ys|
  {
    if ys == [] {
      assert xs + ys == xs;
    } else {
      var n := |ys| - 1;
      SomesConcat(xs, ys[..n]);
      assert (xs + ys)[..|xs| + n] == xs + ys[..n];
    }
  }

  function Mapped<T, U>(f: T -> U, xs: seq<T>): seq<U> {
    seq(|xs|, i requires 0 <= i < |xs| => f(xs[i]))
  }

  lemma MappedConcat<T, U>(f: T -> U, xs: seq<T>, ys: seq<T>)
    ensures Mapped(f, xs + ys) == Mapped(f, xs) + Mapped(f, ys)
  {
  }
}

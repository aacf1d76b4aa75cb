/** Generic facts about sequences: distinctness, occurrence counts, membership
    sets and order-preserving selection. */
module Sequences {

  /** No element occurs twice. */
  ghost predicate Distinct<T>(s: seq<T>) {
    forall i, j :: 0 <= i < j < |s| ==> s[i] != s[j]
  }

  /** The set of elements of `s`. */
  function Elems<T>(s: seq<T>): set<T> {
    set x | x in s
  }

  /** Number of occurrences of `x` in `s`. */
  function Count<T(==)>(s: seq<T>, x: T): (n: nat)
    ensures n <= |s|
    ensures n == 0 <==> x !in s
  {
    if s == [] then 0
    else Count(s[..|s| - 1], x) + (if s[|s| - 1] == x then 1 else 0)
  }

  /** Occurrences in a concatenation add up. */
  lemma {:induction false} CountAppend<T>(a: seq<T>, b: seq<T>, x: T)
    ensures Count(a + b, x) == Count(a, x) + Count(b, x)
    decreases |b|
  {
    if b == [] {
      assert a + b == a;
    } else {
      var b' := b[..|b| - 1];
      assert (a + b)[..|a + b| - 1] == a + b';
      CountAppend(a, b', x);
    }
  }

  /** Occurrences in a sequence with a first element. */
  lemma CountCons<T>(y: T, rest: seq<T>, x: T)
    ensures Count([y] + rest, x) == (if y == x then 1 else 0) + Count(rest, x)
  {
    CountAppend([y], rest, x);
    assert [y][..0] == [];
  }

  /** `a` is `b` with some elements deleted, order kept. */
  ghost predicate IsSubsequence<T>(a: seq<T>, b: seq<T>)
    decreases |b|
  {
    if a == [] then true
    else if b == [] then false
    else if a[|a| - 1] == b[|b| - 1] then IsSubsequence(a[..|a| - 1], b[..|b| - 1])
    else IsSubsequence(a, b[..|b| - 1])
  }

  lemma {:induction false} SubsequenceElems<T>(a: seq<T>, b: seq<T>)
    requires IsSubsequence(a, b)
    ensures forall x :: x in a ==> x in b
    decreases |b|
  {
    if a != [] && b != [] {
      if a[|a| - 1] == b[|b| - 1] {
        SubsequenceElems(a[..|a| - 1], b[..|b| - 1]);
        assert a == a[..|a| - 1] + [a[|a| - 1]];
        assert b == b[..|b| - 1] + [b[|b| - 1]];
      } else {
        SubsequenceElems(a, b[..|b| - 1]);
        assert b == b[..|b| - 1] + [b[|b| - 1]];
      }
    }
  }

  /** The outputs of `f` on each element of `xs`, concatenated in order: a loop
      that extends one result list per input. */
  function Gather<S, T>(f: S -> seq<T>, xs: seq<S>): seq<T> {
    if xs == [] then []
    else Gather(f, xs[..|xs| - 1]) + f(xs[|xs| - 1])
  }

  /** Gathering over a concatenation gathers each part. */
  lemma {:induction false} GatherConcat<S, T>(f: S -> seq<T>, a: seq<S>, b: seq<S>)
    ensures Gather(f, a + b) == Gather(f, a) + Gather(f, b)
    decreases |b|
  {
    if b == [] {
      assert a + b == a;
    } else {
      var b' := b[..|b| - 1];
      assert (a + b)[..|a + b| - 1] == a + b' && (a + b)[|a + b| - 1] == b[|b| - 1];
      GatherConcat(f, a, b');
    }
  }

  /** An input whose output is empty can be dropped. */
  lemma GatherSkip<S, T>(f: S -> seq<T>, a: seq<S>, x: S, b: seq<S>)
    requires f(x) == []
    ensures Gather(f, a + [x] + b) == Gather(f, a + b)
  {
    GatherConcat(f, a + [x], b);
    GatherConcat(f, a, [x]);
    GatherConcat(f, a, b);
    assert [x][..0] == [];
  }

  /** Every gathered element comes from some input. */
  lemma {:induction false} GatherFrom<S, T>(f: S -> seq<T>, xs: seq<S>, y: T)
    requires y in Gather(f, xs)
    ensures exists x :: x in xs && y in f(x)
    decreases |xs|
  {
    var init := xs[..|xs| - 1];
    if y in Gather(f, init) {
      GatherFrom(f, init, y);
      var x :| x in init && y in f(x);
      assert x in xs;
    } else {
      assert xs[|xs| - 1] in xs;
    }
  }
}

/** Sequence vocabulary shared by every component: options, list monad,
    duplicate-freedom and the few laws about them the proofs rest on. */
module Seqs {

  datatype Option<+T> = None | Some(value: T)

  ghost predicate NoDup<T>(s: seq<T>) {
    forall i, j :: 0 <= i < j < |s| ==> s[i] != s[j]
  }

  /** Concatenation of `f(x)` over `xs`: one evaluator loop that pushes to `out`. */
  function FlatMap<A, B>(f: A -> seq<B>, xs: seq<A>): seq<B> {
    if xs == [] then [] else f(xs[0]) + FlatMap(f, xs[1..])
  }

  function Map<A, B>(f: A -> B, xs: seq<A>): (r: seq<B>)
    ensures |r| == |xs| && forall i :: 0 <= i < |xs| ==> r[i] == f(xs[i])
  {
    seq(|xs|, i requires 0 <= i < |xs| => f(xs[i]))
  }

  lemma {:induction false} FlatMapConcat<A, B>(f: A -> seq<B>, xs: seq<A>, ys: seq<A>)
    ensures FlatMap(f, xs + ys) == FlatMap(f, xs) + FlatMap(f, ys)
  {
    if xs == [] {
      assert xs + ys == ys;
    } else {
      assert (xs + ys)[0] == xs[0] && (xs + ys)[1..] == xs[1..] + ys;
      FlatMapConcat(f, xs[1..], ys);
    }
  }

  lemma {:induction false} FlatMapSnoc<A, B>(f: A -> seq<B>, xs: seq<A>, x: A)
    ensures FlatMap(f, xs + [x]) == FlatMap(f, xs) + f(x)
  {
    FlatMapConcat(f, xs, [x]);
    assert FlatMap(f, [x]) == f(x) + FlatMap(f, []);
  }

  lemma {:induction false} FlatMapOne<A, B>(f: A -> seq<B>, x: A)
    ensures FlatMap(f, [x]) == f(x)
  {
    assert FlatMap(f, [x]) == f(x) + FlatMap(f, []);
  }

  lemma {:induction false} FlatMapCong<A, B>(f: A -> seq<B>, g: A -> seq<B>, xs: seq<A>)
    requires forall x :: x in xs ==> f(x) == g(x)
    ensures FlatMap(f, xs) == FlatMap(g, xs)
  {
    if xs != [] {
      assert xs[0] in xs;
      assert forall x :: x in xs[1..] ==> x in xs;
      FlatMapCong(f, g, xs[1..]);
    }
  }

  /** Associativity: running `f` over the rows `g` produced is one loop with body `h`. */
  lemma {:induction false} FlatMapAssoc<A, B, C>(f: B -> seq<C>, g: A -> seq<B>, h: A -> seq<C>, xs: seq<A>)
    requires forall x :: x in xs ==> h(x) == FlatMap(f, g(x))
    ensures FlatMap(f, FlatMap(g, xs)) == FlatMap(h, xs)
  {
    if xs != [] {
      assert xs[0] in xs;
      assert forall x :: x in xs[1..] ==> x in xs;
      FlatMapAssoc(f, g, h, xs[1..]);
      FlatMapConcat(f, g(xs[0]), FlatMap(g, xs[1..]));
    }
  }

  lemma {:induction false} FlatMapUnit<A>(f: A -> seq<A>, xs: seq<A>)
    requires forall x :: x in xs ==> f(x) == [x]
    ensures FlatMap(f, xs) == xs
  {
    if xs != [] {
      assert xs[0] in xs;
      assert forall x :: x in xs[1..] ==> x in xs;
      FlatMapUnit(f, xs[1..]);
    }
  }

  lemma {:induction false} FlatMapEmpty<A, B>(f: A -> seq<B>, xs: seq<A>)
    requires forall x :: x in xs ==> f(x) == []
    ensures FlatMap(f, xs) == []
  {
    if xs != [] {
      assert xs[0] in xs;
      assert forall x :: x in xs[1..] ==> x in xs;
      FlatMapEmpty(f, xs[1..]);
    }
  }

  lemma {:induction false} FlatMapMember<A, B>(f: A -> seq<B>, xs: seq<A>, y: B)
    ensures y in FlatMap(f, xs) <==> exists x :: x in xs && y in f(x)
  {
    if xs != [] {
      FlatMapMember(f, xs[1..], y);
      assert xs[0] in xs;
      assert forall x :: x in xs <==> x == xs[0] || x in xs[1..];
    }
  }

  lemma {:induction false} TakeAll<A>(s: seq<A>)
    ensures s[..|s|] == s
  {
  }

  lemma {:induction false} TakeNext<A>(s: seq<A>, i: nat)
    requires i < |s|
    ensures s[..i + 1] == s[..i] + [s[i]]
  {
  }

  // ------------------------------------------------------- duplicates

  lemma {:induction false} FlatMapNoDup<A, B>(f: A -> seq<B>, xs: seq<A>)
    requires NoDup(xs)
    requires forall x :: x in xs ==> NoDup(f(x))
    requires forall x, x', y :: x in xs && x' in xs && y in f(x) && y in f(x') ==> x == x'
    ensures NoDup(FlatMap(f, xs))
  {
    if xs != [] {
      var rest := xs[1..];
      assert xs[0] in xs && forall x :: x in rest ==> x in xs;
      FlatMapNoDup(f, rest);
      forall y | y in f(xs[0]) ensures y !in FlatMap(f, rest) {
        FlatMapMember(f, rest, y);
        assert forall i :: 0 <= i < |rest| ==> rest[i] == xs[i + 1] && rest[i] != xs[0];
      }
      NoDupConcat(f(xs[0]), FlatMap(f, rest));
    }
  }

  /** As above when each result says which element produced it. */
  lemma {:induction false} FlatMapNoDupBy<A, B>(f: A -> seq<B>, origin: B -> A, xs: seq<A>)
    requires NoDup(xs)
    requires forall x :: x in xs ==> NoDup(f(x))
    requires forall x, y :: x in xs && y in f(x) ==> origin(y) == x
    ensures NoDup(FlatMap(f, xs))
  {
    forall x, x', y | x in xs && x' in xs && y in f(x) && y in f(x') ensures x == x' {
      assert origin(y) == x && origin(y) == x';
    }
    FlatMapNoDup(f, xs);
  }

  lemma {:induction false} NoDupConcat<A>(a: seq<A>, b: seq<A>)
    requires NoDup(a) && NoDup(b) && forall y :: y in a ==> y !in b
    ensures NoDup(a + b)
  {
    forall i, j | 0 <= i < j < |a + b| ensures (a + b)[i] != (a + b)[j] {
      if i < |a| && j >= |a| { assert a[i] in a && b[j - |a|] in b; }
    }
  }

  lemma {:induction false} NoDupCount<A>(s: seq<A>, x: A)
    requires NoDup(s)
    ensures multiset(s)[x] == if x in s then 1 else 0
  {
    if s != [] {
      var t := s[1..];
      assert s == [s[0]] + t;
      assert forall i :: 0 <= i < |t| ==> t[i] == s[i + 1];
      NoDupCount(t, x);
      assert s[0] !in t;
    }
  }

  /** Two duplicate-free lists with the same members are permutations. */
  lemma {:induction false} NoDupPermutation<A>(a: seq<A>, b: seq<A>)
    requires NoDup(a) && NoDup(b) && forall x :: x in a <==> x in b
    ensures multiset(a) == multiset(b)
  {
    forall x ensures multiset(a)[x] == multiset(b)[x] {
      NoDupCount(a, x);
      NoDupCount(b, x);
    }
  }
}

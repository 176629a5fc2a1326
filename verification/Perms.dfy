/** Lists up to order: which list operations respect multisets. */
module Perms {
  import opened Seqs
  import opened Paths

  ghost predicate Perm<T>(a: seq<T>, b: seq<T>) { multiset(a) == multiset(b) }

  lemma {:induction false} PermMembers<T>(a: seq<T>, b: seq<T>)
    requires Perm(a, b)
    ensures |a| == |b| && forall x :: x in a <==> x in b
  {
    assert |a| == |multiset(a)| && |b| == |multiset(b)|;
    forall x ensures x in a <==> x in b { assert x in a <==> x in multiset(a); }
  }

  lemma {:induction false} PermConcat<T>(a: seq<T>, b: seq<T>, c: seq<T>, d: seq<T>)
    requires Perm(a, c) && Perm(b, d)
    ensures Perm(a + b, c + d)
  {
    assert multiset(a + b) == multiset(a) + multiset(b);
    assert multiset(c + d) == multiset(c) + multiset(d);
  }

  lemma {:induction false} Removed<T>(b: seq<T>, i: nat)
    requires i < |b|
    ensures multiset(b[..i] + b[i + 1..]) == multiset(b) - multiset{b[i]}
  {
    assert b == b[..i] + ([b[i]] + b[i + 1..]);
    assert multiset(b) == multiset(b[..i]) + (multiset{b[i]} + multiset(b[i + 1..]));
    assert multiset(b[..i] + b[i + 1..]) == multiset(b[..i]) + multiset(b[i + 1..]);
  }

  lemma {:induction false} Extract<T>(a: seq<T>, b: seq<T>) returns (i: nat)
    requires a != [] && Perm(a, b)
    ensures i < |b| && b[i] == a[0] && Perm(a[1..], b[..i] + b[i + 1..])
  {
    PermMembers(a, b);
    assert a[0] in a;
    i :| 0 <= i < |b| && b[i] == a[0];
    Removed(b, i);
    Removed(a, 0);
    assert a[..0] + a[1..] == a[1..];
  }

  lemma {:induction false} FlatMapMiddle<A, B>(f: A -> seq<B>, ys: seq<A>, i: nat)
    requires i < |ys|
    ensures Perm(FlatMap(f, ys), f(ys[i]) + FlatMap(f, ys[..i] + ys[i + 1..]))
  {
    var pre, x, post := ys[..i], ys[i], ys[i + 1..];
    FlatMapConcat(f, pre, post);
    FlatMapConcat(f, pre, [x] + post);
    FlatMapConcat(f, [x], post);
    FlatMapOne(f, x);
    assert ys == pre + ([x] + post);
    Shuffle(FlatMap(f, pre), f(x), FlatMap(f, post));
  }

  lemma {:induction false} Shuffle<B>(a: seq<B>, b: seq<B>, c: seq<B>)
    ensures Perm(a + (b + c), b + (a + c))
  {
    assert multiset(a + (b + c)) == multiset(a) + (multiset(b) + multiset(c));
    assert multiset(b + (a + c)) == multiset(b) + (multiset(a) + multiset(c));
  }

  lemma {:induction false} FlatMapPerm<A, B>(f: A -> seq<B>, xs: seq<A>, ys: seq<A>)
    requires Perm(xs, ys)
    ensures Perm(FlatMap(f, xs), FlatMap(f, ys))
  {
    if xs == [] {
      PermMembers(xs, ys);
    } else {
      var i := Extract(xs, ys);
      var rest := ys[..i] + ys[i + 1..];
      FlatMapPerm(f, xs[1..], rest);
      FlatMapMiddle(f, ys, i);
      PermConcat(f(xs[0]), FlatMap(f, xs[1..]), f(xs[0]), FlatMap(f, rest));
    }
  }

  lemma {:induction false} FlatMapEach<A, B>(f: A -> seq<B>, g: A -> seq<B>, xs: seq<A>)
    requires forall x :: x in xs ==> Perm(f(x), g(x))
    ensures Perm(FlatMap(f, xs), FlatMap(g, xs))
  {
    if xs != [] {
      assert xs[0] in xs && forall x :: x in xs[1..] ==> x in xs;
      FlatMapEach(f, g, xs[1..]);
      PermConcat(f(xs[0]), FlatMap(f, xs[1..]), g(xs[0]), FlatMap(g, xs[1..]));
    }
  }

  lemma {:induction false} FlatMapBoth<A, B>(f: A -> seq<B>, g: A -> seq<B>, xs: seq<A>, ys: seq<A>)
    requires Perm(xs, ys) && forall x :: x in xs ==> Perm(f(x), g(x))
    ensures Perm(FlatMap(f, xs), FlatMap(g, ys))
  {
    FlatMapEach(f, g, xs);
    FlatMapPerm(g, xs, ys);
  }

  lemma {:induction false} MapPerm<A, B>(f: A -> B, xs: seq<A>, ys: seq<A>)
    requires Perm(xs, ys)
    ensures Perm(Map(f, xs), Map(f, ys))
  {
    MapAsFlat(f, xs);
    MapAsFlat(f, ys);
    FlatMapPerm((x: A) => [f(x)], xs, ys);
  }

  lemma {:induction false} MapAsFlat<A, B>(f: A -> B, xs: seq<A>)
    ensures Map(f, xs) == FlatMap((x: A) => [f(x)], xs)
  {
    if xs != [] {
      MapAsFlat(f, xs[1..]);
      assert Map(f, xs) == [f(xs[0])] + Map(f, xs[1..]);
    }
  }

  lemma {:induction false} AbsorbPerm<T>(xs: seq<T>, ys: seq<T>)
    requires Perm(xs, ys)
    ensures Perm(Absorb([], xs), Absorb([], ys))
  {
    AbsorbMembers([], xs);
    AbsorbMembers([], ys);
    PermMembers(xs, ys);
    NoDupPermutation(Absorb([], xs), Absorb([], ys));
  }
}

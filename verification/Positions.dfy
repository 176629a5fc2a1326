/** Which elements a list operation takes, by position: enough to state order and
    multiplicity of its result without naming the operation. */
module Positions {
  import opened Seqs
  import opened Paths

  ghost predicate Ascending(at: seq<nat>) { forall i, j :: 0 <= i < j < |at| ==> at[i] < at[j] }

  /** First by the first position, then by the second. */
  predicate Precedes(p: (nat, nat), q: (nat, nat)) { p.0 < q.0 || (p.0 == q.0 && p.1 < q.1) }

  ghost predicate InOrder(at: seq<(nat, nat)>) { forall i, j :: 0 <= i < j < |at| ==> Precedes(at[i], at[j]) }

  /** `out` holds the elements of `xs` at these positions, in their order. */
  ghost predicate Picks<A>(out: seq<A>, xs: seq<A>, at: seq<nat>) {
    Ascending(at) && |out| == |at| && forall i :: 0 <= i < |at| ==> at[i] < |xs| && out[i] == xs[at[i]]
  }

  /** Positions with a result. */
  function Hits<A, B>(f: A -> seq<B>, xs: seq<A>): seq<nat> {
    if xs == [] then []
    else Hits(f, xs[..|xs| - 1]) + if f(xs[|xs| - 1]) != [] then [|xs| - 1] else []
  }

  ghost predicate AtMostOne<A, B>(f: A -> seq<B>, xs: seq<A>) { forall i :: 0 <= i < |xs| ==> |f(xs[i])| <= 1 }

  lemma {:induction false} HitsAre<A, B>(f: A -> seq<B>, xs: seq<A>)
    requires AtMostOne(f, xs)
    ensures var at, out := Hits(f, xs), FlatMap(f, xs);
            Ascending(at) && |at| == |out| &&
            (forall i :: 0 <= i < |at| ==> at[i] < |xs| && f(xs[at[i]]) == [out[i]]) &&
            (forall k :: 0 <= k < |xs| ==> (k in at <==> f(xs[k]) != []))
  {
    if xs != [] {
      var n := |xs| - 1;
      var init, last := xs[..n], xs[n];
      HitsAre(f, init);
      FlatMapSnoc(f, init, last);
      assert xs == init + [last];
      assert |f(last)| <= 1;
      if f(last) != [] { assert f(last) == [f(last)[0]]; }
    }
  }

  lemma {:induction false} Singles<A, B>(f: A -> seq<B>, xs: seq<A>)
    requires forall i :: 0 <= i < |xs| ==> |f(xs[i])| == 1
    ensures |FlatMap(f, xs)| == |xs| && forall i :: 0 <= i < |xs| ==> f(xs[i]) == [FlatMap(f, xs)[i]]
  {
    if xs != [] {
      Singles(f, xs[1..]);
      assert f(xs[0]) == [f(xs[0])[0]];
      forall i | 0 <= i < |xs| ensures f(xs[i]) == [FlatMap(f, xs)[i]] {
        if i > 0 { assert f(xs[1..][i - 1]) == [FlatMap(f, xs[1..])[i - 1]]; }
      }
    }
  }

  function Beside(n: nat, js: seq<nat>): seq<(nat, nat)> { seq(|js|, k requires 0 <= k < |js| => (n, js[k])) }

  /** Pairs of a position and the positions `inner` gives its element. */
  function PairHits<A>(inner: A -> seq<nat>, xs: seq<A>): seq<(nat, nat)> {
    if xs == [] then []
    else PairHits(inner, xs[..|xs| - 1]) + Beside(|xs| - 1, inner(xs[|xs| - 1]))
  }

  /** The `k`-th result of `x` stands at `inner(x)[k]`. */
  ghost predicate Indexes<A, B>(f: A -> seq<B>, inner: A -> seq<nat>, xs: seq<A>) {
    forall x :: x in xs ==> Ascending(inner(x)) && |inner(x)| == |f(x)|
  }

  ghost predicate FromPair<A, B>(f: A -> seq<B>, inner: A -> seq<nat>, xs: seq<A>, p: (nat, nat), y: B) {
    p.0 < |xs| && |inner(xs[p.0])| == |f(xs[p.0])| &&
    exists k :: 0 <= k < |f(xs[p.0])| && inner(xs[p.0])[k] == p.1 && f(xs[p.0])[k] == y
  }

  lemma {:induction false} PairHitsAre<A, B>(f: A -> seq<B>, inner: A -> seq<nat>, xs: seq<A>)
    requires Indexes(f, inner, xs)
    ensures var at, out := PairHits(inner, xs), FlatMap(f, xs);
            InOrder(at) && |at| == |out| &&
            (forall n :: 0 <= n < |at| ==> FromPair(f, inner, xs, at[n], out[n])) &&
            (forall i, j :: 0 <= i < |xs| ==> ((i, j) in at <==> j in inner(xs[i])))
  {
    if xs != [] {
      var n := |xs| - 1;
      var init, last := xs[..n], xs[n];
      assert last in xs;
      PairHitsAre(f, inner, init);
      FlatMapSnoc(f, init, last);
      assert xs == init + [last];
      var before, here := PairHits(inner, init), Beside(n, inner(last));
      var at, out := PairHits(inner, xs), FlatMap(f, xs);
      forall m | 0 <= m < |at| ensures FromPair(f, inner, xs, at[m], out[m]) {
        if m < |before| {
          assert FromPair(f, inner, init, before[m], FlatMap(f, init)[m]);
        } else {
          assert inner(last)[m - |before|] == at[m].1;
        }
      }
      forall i, j | 0 <= i < |xs| ensures (i, j) in at <==> j in inner(xs[i]) {
        PairsLast(before, n, inner(last), i, j);
      }
      forall a, b | 0 <= a < b < |at| ensures Precedes(at[a], at[b]) {
        if a < |before| && b >= |before| { assert FromPair(f, inner, init, at[a], out[a]); }
      }
    }
  }

  lemma {:induction false} PairsLast(before: seq<(nat, nat)>, n: nat, js: seq<nat>, i: nat, j: nat)
    requires forall p :: p in before ==> p.0 < n
    ensures (i, j) in before + Beside(n, js) <==> if i == n then j in js else (i, j) in before
  {
    if i == n && j in js {
      var k :| 0 <= k < |js| && js[k] == j;
      assert Beside(n, js)[k] == (i, j);
    }
  }

  /** Positions of first appearances. */
  function Firsts<A(==)>(xs: seq<A>): seq<nat> {
    if xs == [] then []
    else Firsts(xs[..|xs| - 1]) + if xs[|xs| - 1] in xs[..|xs| - 1] then [] else [|xs| - 1]
  }

  ghost predicate IsFirst<A>(xs: seq<A>, k: nat)
    requires k < |xs|
  {
    forall j :: 0 <= j < k ==> xs[j] != xs[k]
  }

  lemma {:induction false} PicksMore<A>(out: seq<A>, xs: seq<A>, at: seq<nat>, x: A)
    requires Picks(out, xs, at)
    ensures Picks(out, xs + [x], at) && Picks(out + [x], xs + [x], at + [|xs|])
  {
  }

  lemma {:induction false} FirstsStep<A>(xs: seq<A>, n: nat)
    requires |xs| == n + 1
    requires forall k :: 0 <= k < n ==> (k in Firsts(xs[..n]) <==> IsFirst(xs[..n], k))
    requires Ascending(Firsts(xs[..n])) && forall i :: 0 <= i < |Firsts(xs[..n])| ==> Firsts(xs[..n])[i] < n
    ensures forall k :: 0 <= k < |xs| ==> (k in Firsts(xs) <==> IsFirst(xs, k))
  {
    NewIsFirst(xs, n);
    forall k | 0 <= k < |xs| ensures k in Firsts(xs) <==> IsFirst(xs, k) {
      if k < n { FirstInPrefix(xs, n, k); }
    }
  }

  lemma {:induction false} FirstsAre<A>(xs: seq<A>)
    ensures Picks(Absorb([], xs), xs, Firsts(xs))
    ensures forall k :: 0 <= k < |xs| ==> (k in Firsts(xs) <==> IsFirst(xs, k))
  {
    if xs != [] {
      var n := |xs| - 1;
      var init := xs[..n];
      FirstsAre(init);
      AbsorbSnoc([], xs, n);
      AbsorbMembers([], init);
      PicksMore(Absorb([], init), init, Firsts(init), xs[n]);
      assert xs == init + [xs[n]] && xs[..n + 1] == xs;
      FirstsStep(xs, n);
    }
  }

  lemma {:induction false} NewIsFirst<A>(xs: seq<A>, n: nat)
    requires n < |xs|
    ensures xs[n] in xs[..n] <==> !IsFirst(xs, n)
  {
    if xs[n] in xs[..n] {
      var j :| 0 <= j < n && xs[..n][j] == xs[n];
      assert xs[j] == xs[n];
    }
    if !IsFirst(xs, n) {
      var j :| 0 <= j < n && xs[j] == xs[n];
      assert xs[..n][j] == xs[n];
    }
  }

  lemma {:induction false} FirstInPrefix<A>(xs: seq<A>, n: nat, k: nat)
    requires k < n <= |xs|
    ensures IsFirst(xs, k) <==> IsFirst(xs[..n], k)
  {
    forall j | 0 <= j < k ensures xs[j] == xs[..n][j] && xs[k] == xs[..n][k] { }
  }

  // ------------------------------------------------------- sets of positions

  ghost function Elements(at: seq<nat>): set<nat> { set k | k in at }

  lemma {:induction false} AscendingSize(at: seq<nat>)
    requires Ascending(at)
    ensures |Elements(at)| == |at|
  {
    if at != [] {
      var init, last := at[..|at| - 1], at[|at| - 1];
      AscendingSize(init);
      assert Elements(at) == Elements(init) + {last};
      assert last !in init;
    }
  }

  lemma {:induction false} SamePositions(at: seq<nat>, all: set<nat>, n: nat)
    requires (forall i :: 0 <= i < |at| ==> at[i] < n) && forall j :: j in all ==> j < n
    requires forall j: nat :: j < n ==> (j in at <==> j in all)
    ensures Elements(at) == all
  {
  }

  /** Hits of an operation that has one result at each of the given positions. */
  lemma {:induction false} SomeHits<A, B>(f: A -> seq<B>, xs: seq<A>, some: set<nat>, val: nat -> B)
    requires forall j :: j in some ==> j < |xs|
    requires forall j: nat :: j < |xs| ==> f(xs[j]) == if j in some then [val(j)] else []
    ensures var at, out := Hits(f, xs), FlatMap(f, xs);
            Ascending(at) && |at| == |out| && Elements(at) == some &&
            forall n :: 0 <= n < |at| ==> out[n] == val(at[n])
  {
    HitsAre(f, xs);
    SamePositions(Hits(f, xs), some, |xs|);
  }

  ghost predicate IsLeast(j: nat, all: set<nat>) { j in all && forall i :: i in all ==> j <= i }

  lemma {:induction false} LeastIs(at: seq<nat>, all: set<nat>)
    requires Ascending(at) && at != [] && Elements(at) == all
    ensures forall j :: IsLeast(j, all) <==> j == at[0]
  {
    assert at[0] in Elements(at);
    forall i | i in all ensures at[0] <= i { assert i in Elements(at); }
  }
}

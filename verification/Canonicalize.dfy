/** Canonical ordering of basic graph patterns (crates/graphy-algebra/src/rewrite.rs,
    `canonicalize`, `map_tree`): the form is stable, and two queries share it
    exactly when they differ in the order of patterns alone. */
module Canonicalize {
  import opened Rows
  import opened AlgebraTree
  import opened Perms
  import ByteOrder
  import Concise
  import Varint

  // ------------------------------------------------------- the derived order

  /** Constants by their bytes, before variables by number. */
  predicate PosBefore(a: Pos, b: Pos) {
    match (a, b)
    case (Const(t), Const(u)) => ByteOrder.Less(Concise.Encode(t), Concise.Encode(u))
    case (Const(_), Var(_)) => true
    case (Var(_), Const(_)) => false
    case (Var(v), Var(w)) => v < w
  }

  predicate Before(a: TriplePat, b: TriplePat) {
    PosBefore(a.s, b.s) || (a.s == b.s && (PosBefore(a.p, b.p) || (a.p == b.p && PosBefore(a.o, b.o))))
  }

  /** Constants of the query are encodable terms. */
  ghost predicate PosOk(c: Concise.Checks, p: Pos) {
    p.Const? ==> Concise.TermOk(c, p.t, 0) && |Concise.Encode(p.t)| < Varint.U64
  }

  ghost predicate PatternsOk(c: Concise.Checks, ts: seq<TriplePat>) {
    forall t :: t in ts ==> PosOk(c, t.s) && PosOk(c, t.p) && PosOk(c, t.o)
  }

  lemma {:induction false} PosOrder(a: Pos, b: Pos)
    ensures !(PosBefore(a, b) && PosBefore(b, a)) && !PosBefore(a, a)
  {
    if a.Const? {
      ByteOrder.LessIrreflexive(Concise.Encode(a.t));
      if b.Const? { ByteOrder.LessTotal(Concise.Encode(a.t), Concise.Encode(b.t)); }
    }
  }

  lemma {:induction false} PosTotal(c: Concise.Checks, a: Pos, b: Pos)
    requires Concise.Sane(c) && PosOk(c, a) && PosOk(c, b)
    ensures a == b || PosBefore(a, b) || PosBefore(b, a)
  {
    if a.Const? && b.Const? {
      ByteOrder.LessTotal(Concise.Encode(a.t), Concise.Encode(b.t));
      if Concise.Encode(a.t) == Concise.Encode(b.t) { Concise.EncodeInjective(c, a.t, b.t, 0); }
    }
  }

  lemma {:induction false} PosTransitive(x: Pos, y: Pos, z: Pos)
    requires PosBefore(x, y) && PosBefore(y, z)
    ensures PosBefore(x, z)
  {
    if x.Const? && y.Const? && z.Const? {
      ByteOrder.LessTransitive(Concise.Encode(x.t), Concise.Encode(y.t), Concise.Encode(z.t));
    }
  }

  lemma {:induction false} Asymmetric(a: TriplePat, b: TriplePat)
    ensures !(Before(a, b) && Before(b, a))
  {
    PosOrder(a.s, b.s);
    PosOrder(a.p, b.p);
    PosOrder(a.o, b.o);
  }

  lemma {:induction false} Total(c: Concise.Checks, a: TriplePat, b: TriplePat)
    requires Concise.Sane(c) && PatternsOk(c, [a, b])
    ensures a == b || Before(a, b) || Before(b, a)
  {
    assert a in [a, b] && b in [a, b];
    PosTotal(c, a.s, b.s);
    PosTotal(c, a.p, b.p);
    PosTotal(c, a.o, b.o);
  }

  lemma {:induction false} Transitive(x: TriplePat, y: TriplePat, z: TriplePat)
    requires Before(x, y) && Before(y, z)
    ensures Before(x, z)
  {
    if PosBefore(x.s, y.s) && PosBefore(y.s, z.s) { PosTransitive(x.s, y.s, z.s); }
    if PosBefore(x.p, y.p) && PosBefore(y.p, z.p) { PosTransitive(x.p, y.p, z.p); }
    if PosBefore(x.o, y.o) && PosBefore(y.o, z.o) { PosTransitive(x.o, y.o, z.o); }
  }

  // ------------------------------------------------------- sorting

  function Place(t: TriplePat, ts: seq<TriplePat>): seq<TriplePat> {
    if ts == [] || !Before(ts[0], t) then [t] + ts else [ts[0]] + Place(t, ts[1..])
  }

  /** `ts.sort()`: a stable sort, as repeated insertion. */
  function SortPatterns(ts: seq<TriplePat>): seq<TriplePat> {
    if ts == [] then [] else Place(ts[0], SortPatterns(ts[1..]))
  }

  /** No pattern comes right before one that belongs ahead of it. */
  predicate Ascending(ts: seq<TriplePat>) {
    |ts| < 2 || (!Before(ts[1], ts[0]) && Ascending(ts[1..]))
  }

  lemma {:induction false} PlacePerm(t: TriplePat, ts: seq<TriplePat>)
    ensures Perm(Place(t, ts), [t] + ts)
    decreases |ts|
  {
    if ts != [] && Before(ts[0], t) {
      PlacePerm(t, ts[1..]);
      assert [t] + ts == [t] + ([ts[0]] + ts[1..]);
    }
  }

  lemma {:induction false} PlaceKeeps(t: TriplePat, ts: seq<TriplePat>)
    requires Ascending(ts)
    ensures Ascending(Place(t, ts))
    decreases |ts|
  {
    if ts == [] || !Before(ts[0], t) {
      assert ([t] + ts)[1..] == ts;
    } else {
      PlaceKeeps(t, ts[1..]);
      Asymmetric(ts[0], t);
      assert ([ts[0]] + Place(t, ts[1..]))[1..] == Place(t, ts[1..]);
    }
  }

  lemma {:induction false} SortKeeps(ts: seq<TriplePat>)
    ensures Ascending(SortPatterns(ts)) && Perm(SortPatterns(ts), ts)
    decreases |ts|
  {
    if ts != [] {
      SortKeeps(ts[1..]);
      PlacePerm(ts[0], SortPatterns(ts[1..]));
      PlaceKeeps(ts[0], SortPatterns(ts[1..]));
      assert ts == [ts[0]] + ts[1..];
    }
  }

  lemma {:induction false} SortedStays(ts: seq<TriplePat>)
    requires Ascending(ts)
    ensures SortPatterns(ts) == ts
    decreases |ts|
  {
    if ts != [] {
      SortedStays(ts[1..]);
      assert ts == [ts[0]] + ts[1..];
    }
  }

  lemma {:induction false} HeadLeast(c: Concise.Checks, ts: seq<TriplePat>, i: nat)
    requires Concise.Sane(c) && PatternsOk(c, ts) && Ascending(ts) && i < |ts|
    ensures ts[0] == ts[i] || Before(ts[0], ts[i])
    decreases |ts|
  {
    if i > 0 {
      TailPatterns(c, ts);
      HeadLeast(c, ts[1..], i - 1);
      assert ts[0] in ts && ts[1] in ts;
      Total(c, ts[0], ts[1]);
      if Before(ts[0], ts[1]) && Before(ts[1], ts[i]) { Transitive(ts[0], ts[1], ts[i]); }
    }
  }

  lemma {:induction false} TailPatterns(c: Concise.Checks, ts: seq<TriplePat>)
    requires ts != [] && PatternsOk(c, ts)
    ensures PatternsOk(c, ts[1..]) && multiset(ts[1..]) == multiset(ts) - multiset{ts[0]}
  {
    assert ts == [ts[0]] + ts[1..];
  }

  lemma {:induction false} HeadsAgree(c: Concise.Checks, ts: seq<TriplePat>, us: seq<TriplePat>)
    requires Concise.Sane(c) && PatternsOk(c, ts) && PatternsOk(c, us) && Ascending(ts) && Ascending(us)
    requires ts != [] && us != [] && ts[0] in us && us[0] in ts
    ensures ts[0] == us[0]
  {
    var i :| 0 <= i < |us| && us[i] == ts[0];
    var j :| 0 <= j < |ts| && ts[j] == us[0];
    HeadLeast(c, us, i);
    HeadLeast(c, ts, j);
    Asymmetric(ts[0], us[0]);
  }

  /** An ascending arrangement of given patterns is unique. */
  lemma {:induction false} AscendingUnique(c: Concise.Checks, ts: seq<TriplePat>, us: seq<TriplePat>)
    requires Concise.Sane(c) && PatternsOk(c, ts) && PatternsOk(c, us) && Ascending(ts) && Ascending(us) && Perm(ts, us)
    ensures ts == us
    decreases |ts|
  {
    PermMembers(ts, us);
    if ts != [] {
      HeadsAgree(c, ts, us);
      TailPatterns(c, ts);
      TailPatterns(c, us);
      AscendingUnique(c, ts[1..], us[1..]);
      assert ts == [ts[0]] + ts[1..] && us == [us[0]] + us[1..];
    }
  }

  /** Sorted forms agree exactly on rearrangements. */
  lemma {:induction false} SortDecides(c: Concise.Checks, ts: seq<TriplePat>, us: seq<TriplePat>)
    requires Concise.Sane(c) && PatternsOk(c, ts)
    ensures SortPatterns(ts) == SortPatterns(us) <==> Perm(ts, us)
  {
    SortKeeps(ts);
    SortKeeps(us);
    PermMembers(SortPatterns(ts), ts);
    PermMembers(SortPatterns(us), us);
    if Perm(ts, us) {
      PermMembers(ts, us);
      AscendingUnique(c, SortPatterns(ts), SortPatterns(us));
    }
  }

  /** `x` stands no later than `y`: constants first, by their bytes, then variables by
      number. */
  predicate NotAfter(x: Pos, y: Pos) {
    (y.Const? ==> x.Const? && !ByteOrder.Less(Concise.Encode(y.t), Concise.Encode(x.t)))
    && (x.Var? && y.Var? ==> x.v <= y.v)
  }

  /** The canonical order goes by subject, then predicate, then object. */
  lemma {:induction false} SortedBySubject(c: Concise.Checks, ts: seq<TriplePat>, i: nat, j: nat)
    requires Concise.Sane(c) && PatternsOk(c, ts) && i < j < |SortPatterns(ts)|
    ensures var a, b := SortPatterns(ts)[i], SortPatterns(ts)[j];
            NotAfter(a.s, b.s) &&
            (a.s == b.s ==> NotAfter(a.p, b.p) && (a.p == b.p ==> NotAfter(a.o, b.o)))
  {
    var us := SortPatterns(ts);
    SortKeeps(ts);
    PermMembers(us, ts);
    TailAscending(us, i);
    assert forall t :: t in us[i..] ==> t in us;
    HeadLeast(c, us[i..], j - i);
    var a, b := us[i], us[j];
    assert us[i..][0] == a && us[i..][j - i] == b;
    BeforeIsNotAfter(a.s, b.s);
    BeforeIsNotAfter(a.p, b.p);
    BeforeIsNotAfter(a.o, b.o);
  }

  lemma {:induction false} TailAscending(ts: seq<TriplePat>, i: nat)
    requires Ascending(ts) && i <= |ts|
    ensures Ascending(ts[i..])
  {
    if i > 0 {
      TailAscending(ts[1..], i - 1);
      assert ts[1..][i - 1..] == ts[i..];
    } else {
      assert ts[0..] == ts;
    }
  }

  lemma {:induction false} BeforeIsNotAfter(x: Pos, y: Pos)
    ensures x == y || PosBefore(x, y) ==> NotAfter(x, y)
  {
    if x.Const? {
      ByteOrder.LessIrreflexive(Concise.Encode(x.t));
      if y.Const? { ByteOrder.LessTotal(Concise.Encode(x.t), Concise.Encode(y.t)); }
    }
  }

  // ------------------------------------------------------- trees

  function Canonical(a: Algebra): Algebra {
    match a
    case Bgp(ts) => Bgp(SortPatterns(ts))
    case Path(_, _, _) => a
    case Table(_, _) => a
    case Join(l, r) => Join(Canonical(l), Canonical(r))
    case LeftJoin(l, r, on) => LeftJoin(Canonical(l), Canonical(r), on)
    case Union(l, r) => Union(Canonical(l), Canonical(r))
    case Minus(l, r) => Minus(Canonical(l), Canonical(r))
    case Filter(e, x) => Filter(e, Canonical(x))
    case GraphNode(g, x) => GraphNode(g, Canonical(x))
    case Extend(x, v, e) => Extend(Canonical(x), v, e)
    case ToMultiSet(x) => ToMultiSet(Canonical(x))
    case Group(keys, aggs, x) => Group(keys, aggs, Canonical(x))
    case OrderBy(x, conds) => OrderBy(Canonical(x), conds)
    case Project(x, vars) => Project(Canonical(x), vars)
    case Distinct(x) => Distinct(Canonical(x))
    case Reduced(x) => Reduced(Canonical(x))
    case Slice(x, offset, limit) => Slice(Canonical(x), offset, limit)
  }

  /** The same query but for the order of the patterns in each basic graph pattern. */
  ghost predicate Reordered(a: Algebra, b: Algebra) {
    match a
    case Bgp(ts) => b.Bgp? && Perm(ts, b.patterns)
    case Path(_, _, _) => a == b
    case Table(_, _) => a == b
    case Join(l, r) => b.Join? && Reordered(l, b.l) && Reordered(r, b.r)
    case LeftJoin(l, r, on) => b.LeftJoin? && on == b.on && Reordered(l, b.l) && Reordered(r, b.r)
    case Union(l, r) => b.Union? && Reordered(l, b.l) && Reordered(r, b.r)
    case Minus(l, r) => b.Minus? && Reordered(l, b.l) && Reordered(r, b.r)
    case Filter(e, x) => b.Filter? && e == b.cond && Reordered(x, b.input)
    case GraphNode(g, x) => b.GraphNode? && g == b.graph && Reordered(x, b.input)
    case Extend(x, v, e) => b.Extend? && v == b.v && e == b.expr && Reordered(x, b.input)
    case ToMultiSet(x) => b.ToMultiSet? && Reordered(x, b.input)
    case Group(keys, aggs, x) => b.Group? && keys == b.keys && aggs == b.aggs && Reordered(x, b.input)
    case OrderBy(x, conds) => b.OrderBy? && conds == b.conds && Reordered(x, b.input)
    case Project(x, vars) => b.Project? && vars == b.vars && Reordered(x, b.input)
    case Distinct(x) => b.Distinct? && Reordered(x, b.input)
    case Reduced(x) => b.Reduced? && Reordered(x, b.input)
    case Slice(x, offset, limit) => b.Slice? && offset == b.offset && limit == b.limit && Reordered(x, b.input)
  }

  ghost predicate TreeOk(c: Concise.Checks, a: Algebra) {
    match a
    case Bgp(ts) => PatternsOk(c, ts)
    case Path(_, _, _) => true
    case Table(_, _) => true
    case Join(l, r) => TreeOk(c, l) && TreeOk(c, r)
    case LeftJoin(l, r, _) => TreeOk(c, l) && TreeOk(c, r)
    case Union(l, r) => TreeOk(c, l) && TreeOk(c, r)
    case Minus(l, r) => TreeOk(c, l) && TreeOk(c, r)
    case Filter(_, x) => TreeOk(c, x)
    case GraphNode(_, x) => TreeOk(c, x)
    case Extend(x, _, _) => TreeOk(c, x)
    case ToMultiSet(x) => TreeOk(c, x)
    case Group(_, _, x) => TreeOk(c, x)
    case OrderBy(x, _) => TreeOk(c, x)
    case Project(x, _) => TreeOk(c, x)
    case Distinct(x) => TreeOk(c, x)
    case Reduced(x) => TreeOk(c, x)
    case Slice(x, _, _) => TreeOk(c, x)
  }

  /** The pass only reorders patterns. */
  lemma {:induction false} CanonicalReorders(a: Algebra)
    ensures Reordered(a, Canonical(a))
  {
    match a
    case Bgp(ts) => SortKeeps(ts);
    case Path(_, _, _) =>
    case Table(_, _) =>
    case Join(l, r) => CanonicalReorders(l); CanonicalReorders(r);
    case LeftJoin(l, r, _) => CanonicalReorders(l); CanonicalReorders(r);
    case Union(l, r) => CanonicalReorders(l); CanonicalReorders(r);
    case Minus(l, r) => CanonicalReorders(l); CanonicalReorders(r);
    case _ => CanonicalReorders(a.input);
  }

  lemma {:induction false} CanonicalIdempotent(a: Algebra)
    ensures Canonical(Canonical(a)) == Canonical(a)
  {
    match a
    case Bgp(ts) => SortKeeps(ts); SortedStays(SortPatterns(ts));
    case Path(_, _, _) =>
    case Table(_, _) =>
    case Join(l, r) => CanonicalIdempotent(l); CanonicalIdempotent(r);
    case LeftJoin(l, r, _) => CanonicalIdempotent(l); CanonicalIdempotent(r);
    case Union(l, r) => CanonicalIdempotent(l); CanonicalIdempotent(r);
    case Minus(l, r) => CanonicalIdempotent(l); CanonicalIdempotent(r);
    case _ => CanonicalIdempotent(a.input);
  }

  /** Plans cached under the canonical form are shared exactly by the queries that
      differ in pattern order alone. */
  lemma {:induction false} CanonicalDecides(c: Concise.Checks, a: Algebra, b: Algebra)
    requires Concise.Sane(c) && TreeOk(c, a)
    ensures Canonical(a) == Canonical(b) <==> Reordered(a, b)
    decreases a, 1
  {
    match a
    case Bgp(ts) => if b.Bgp? { SortDecides(c, ts, b.patterns); }
    case Path(_, _, _) =>
    case Table(_, _) =>
    case Join(l, r) => if b.Join? { CanonicalDecides(c, l, b.l); CanonicalDecides(c, r, b.r); }
    case LeftJoin(l, r, _) => if b.LeftJoin? { CanonicalDecides(c, l, b.l); CanonicalDecides(c, r, b.r); }
    case Union(l, r) => if b.Union? { CanonicalDecides(c, l, b.l); CanonicalDecides(c, r, b.r); }
    case Minus(l, r) => if b.Minus? { CanonicalDecides(c, l, b.l); CanonicalDecides(c, r, b.r); }
    case _ => UnaryDecides(c, a, b);
  }

  lemma {:induction false} UnaryDecides(c: Concise.Checks, a: Algebra, b: Algebra)
    requires Concise.Sane(c) && TreeOk(c, a)
    requires !a.Bgp? && !a.Path? && !a.Table? && !a.Join? && !a.LeftJoin? && !a.Union? && !a.Minus?
    ensures Canonical(a) == Canonical(b) <==> Reordered(a, b)
    decreases a, 0
  {
    if !b.Bgp? && !b.Path? && !b.Table? && !b.Join? && !b.LeftJoin? && !b.Union? && !b.Minus? {
      CanonicalDecides(c, a.input, b.input);
    }
  }
}

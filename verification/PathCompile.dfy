/** Translation of property paths to joins and unions
    (crates/graphy-algebra/src/translate.rs, `path_triple` and `join`). */
module PathCompile {
  import opened Seqs
  import opened Terms
  import opened Store
  import opened Rows
  import opened RowOps
  import opened Expressions
  import opened Paths
  import opened PathExact
  import opened PathModes
  import opened AlgebraTree
  import opened BgpOrder

  /** `join`: a unit operand disappears and adjacent basic graph patterns merge. */
  function JoinTrees(a: Algebra, b: Algebra): Algebra {
    if a == Bgp([]) then b
    else if b == Bgp([]) then a
    else if a.Bgp? && b.Bgp? then Bgp(a.patterns + b.patterns)
    else Join(a, b)
  }

  /** A translated tree and the next unused variable. */
  datatype Compiled = Compiled(tree: Algebra, next: VarId)

  /** `path_triple`: sequences, alternatives and inverses decompose, each sequence
      with a fresh middle variable; the other forms stay path nodes. */
  function PathTriple(s: Pos, p: PathExpr, o: Pos, next: VarId): (r: Compiled)
    ensures r.next >= next
    decreases p
  {
    match p
    case Link(iri) => Compiled(Bgp([TriplePat(s, Const(iri), o)]), next)
    case Inverse(q) => PathTriple(o, q, s, next)
    case Seq(a, b) =>
      var left := PathTriple(s, a, Var(next), next + 1);
      var right := PathTriple(Var(next), b, o, left.next);
      Compiled(JoinTrees(left.tree, right.tree), right.next)
    case Alt(a, b) =>
      var left := PathTriple(s, a, o, next);
      var right := PathTriple(s, b, o, left.next);
      Compiled(Union(left.tree, right.tree), right.next)
    case _ => Compiled(Path(s, p, o), next)
  }

  /** Joins, unions and basic graph patterns down to closures and negated sets; no
      join has a unit operand or two basic graph patterns. */
  predicate Decomposed(a: Algebra) {
    match a
    case Bgp(_) => true
    case Path(_, p, _) => Closes(p) || p.Nps?
    case Join(l, r) => Decomposed(l) && Decomposed(r) && l != Bgp([]) && r != Bgp([]) && !(l.Bgp? && r.Bgp?)
    case Union(l, r) => Decomposed(l) && Decomposed(r)
    case _ => false
  }

  /** Only closures and negated sets are left to the path evaluator. */
  lemma {:induction false} CompiledDecomposed(s: Pos, p: PathExpr, o: Pos, next: VarId)
    ensures Decomposed(PathTriple(s, p, o, next).tree)
    decreases p
  {
    match p
    case Inverse(q) => CompiledDecomposed(o, q, s, next);
    case Seq(a, b) =>
      CompiledDecomposed(s, a, Var(next), next + 1);
      CompiledDecomposed(Var(next), b, o, PathTriple(s, a, Var(next), next + 1).next);
    case Alt(a, b) =>
      CompiledDecomposed(s, a, o, next);
      CompiledDecomposed(s, b, o, PathTriple(s, a, o, next).next);
    case _ =>
  }

  // ------------------------------------------------------- joins as sets

  ghost predicate Joined(left: seq<Row>, right: seq<Row>, a: Row, b: Row, m: Row) {
    a in left && b in right && Compatible(a, b) && m == a + b
  }

  ghost predicate InJoin(left: seq<Row>, right: seq<Row>, m: Row) { exists a, b :: Joined(left, right, a, b, m) }

  lemma {:induction false} JoinRows(left: seq<Row>, right: seq<Row>, m: Row)
    ensures m in FlatMap(JoinOne(right), left) <==> InJoin(left, right, m)
  {
    FlatMapMember(JoinOne(right), left, m);
    if a :| a in left && m in JoinOne(right)(a) {
      FlatMapMember(MergeInto(a), right, m);
      var b :| b in right && m in MergeInto(a)(b);
      assert Joined(left, right, a, b, m);
    }
    if a, b :| Joined(left, right, a, b, m) {
      FlatMapMember(MergeInto(a), right, m);
      assert m in MergeInto(a)(b);
      assert m in JoinOne(right)(a);
    }
  }

  lemma {:induction false} PatternVarsConcat(x: seq<TriplePat>, y: seq<TriplePat>)
    ensures PatternVars(x + y) == PatternVars(x) + PatternVars(y)
  {
    if x == [] {
      assert x + y == y;
    } else {
      PatternVarsConcat(x[1..], y);
      assert (x + y)[1..] == x[1..] + y;
    }
  }

  lemma {:induction false} InstanceUnder(ts: seq<TriplePat>, t: TriplePat, m: Row, k: Row)
    requires t in ts && m.Keys >= PatternVars(ts) && k.Keys >= PatternVars(ts)
    requires forall v :: v in PatternVars(ts) ==> m[v] == k[v]
    ensures Instance(t, m) == Instance(t, k)
  {
    forall v | v in PatVars(t) ensures v in PatternVars(ts) { PatternVarsMember(ts, v); }
  }

  lemma {:induction false} MergedSplits(g: Graph, x: seq<TriplePat>, y: seq<TriplePat>, m: Row)
    requires Solution(g, x + y, m)
    ensures Joined(EvalBgp(g, x), EvalBgp(g, y), Restrict(m, PatternVars(x)), Restrict(m, PatternVars(y)), m)
  {
    PatternVarsConcat(x, y);
    var a, b := Restrict(m, PatternVars(x)), Restrict(m, PatternVars(y));
    assert a.Keys == PatternVars(x) && b.Keys == PatternVars(y);
    forall t | t in x ensures Instance(t, a) in g.triples {
      assert t in x + y;
      InstanceUnder(x, t, m, a);
    }
    forall t | t in y ensures Instance(t, b) in g.triples {
      assert t in x + y;
      InstanceUnder(y, t, m, b);
    }
    BgpSolutions(g, x, a);
    BgpSolutions(g, y, b);
    SameRow(m, a + b);
  }

  lemma {:induction false} SplitsMerge(g: Graph, x: seq<TriplePat>, y: seq<TriplePat>, a: Row, b: Row, m: Row)
    requires Joined(EvalBgp(g, x), EvalBgp(g, y), a, b, m)
    ensures Solution(g, x + y, m)
  {
    BgpSolutions(g, x, a);
    BgpSolutions(g, y, b);
    PatternVarsConcat(x, y);
    forall t | t in x + y ensures Instance(t, m) in g.triples {
      if t in x { InstanceUnder(x, t, m, a); } else { InstanceUnder(y, t, m, b); }
    }
  }

  /** Merging two basic graph patterns is joining them. */
  lemma {:induction false} MergedBgp(g: Graph, x: seq<TriplePat>, y: seq<TriplePat>, m: Row)
    ensures m in EvalBgp(g, x + y) <==> InJoin(EvalBgp(g, x), EvalBgp(g, y), m)
  {
    BgpSolutions(g, x + y, m);
    if Solution(g, x + y, m) { MergedSplits(g, x, y, m); }
    if a, b :| Joined(EvalBgp(g, x), EvalBgp(g, y), a, b, m) { SplitsMerge(g, x, y, a, b, m); }
  }

  lemma {:induction false} UnitRows(en: Engine, sc: Scope)
    ensures Eval(en, sc, Bgp([])) == [map[]]
  {
  }

  lemma {:induction false} BgpEval(en: Engine, sc: Scope, a: Algebra)
    requires a.Bgp?
    ensures Eval(en, sc, a) == EvalBgp(GraphAt(en, sc), a.patterns)
  {
  }

  /** The shortcuts of `join` keep the set of joined rows. */
  lemma {:induction false} JoinTreesRows(en: Engine, sc: Scope, l: Algebra, r: Algebra, m: Row)
    ensures m in Eval(en, sc, JoinTrees(l, r)) <==> InJoin(Eval(en, sc, l), Eval(en, sc, r), m)
  {
    JoinRows(Eval(en, sc, l), Eval(en, sc, r), m);
    if l == Bgp([]) {
      UnitRows(en, sc);
      JoinUnit(Eval(en, sc, r));
    } else if r == Bgp([]) {
      UnitRows(en, sc);
      JoinUnit(Eval(en, sc, l));
    } else if l.Bgp? && r.Bgp? {
      BgpEval(en, sc, l);
      BgpEval(en, sc, r);
      BgpEval(en, sc, Bgp(l.patterns + r.patterns));
      MergedBgp(GraphAt(en, sc), l.patterns, r.patterns, m);
    } else {
      JoinMeaning(en, sc, l, r);
    }
  }

  /** Where no basic graph patterns merge, even the row sequence is the join's. */
  lemma {:induction false} JoinTreesSequence(en: Engine, sc: Scope, l: Algebra, r: Algebra)
    requires !(l.Bgp? && r.Bgp?) || l == Bgp([]) || r == Bgp([])
    ensures Eval(en, sc, JoinTrees(l, r)) == Eval(en, sc, Join(l, r))
  {
    UnitRows(en, sc);
    JoinMeaning(en, sc, l, r);
    if l == Bgp([]) {
      JoinUnit(Eval(en, sc, r));
    } else if r == Bgp([]) {
      JoinUnit(Eval(en, sc, l));
    }
  }

  // ------------------------------------------------------- endpoint pairs

  /** Every row binds the ends, and beyond them only fresh variables. */
  ghost predicate Bounded(rows: seq<Row>, v: VarId, w: VarId, lo: VarId, hi: VarId) {
    forall m :: m in rows ==> v in m && w in m && forall u :: u in m ==> u == v || u == w || lo <= u < hi
  }

  ghost predicate HasPair(rows: seq<Row>, v: VarId, w: VarId, x: Term, y: Term) {
    exists m :: m in rows && v in m && w in m && m[v] == x && m[w] == y
  }

  /** The pairs a relation has from a node of the graph; equal ends when both are
      the same variable. */
  predicate Related(nodes: set<Term>, r: Relation, v: VarId, w: VarId, x: Term, y: Term) {
    x in nodes && r(x, y) && (v == w ==> x == y)
  }

  ghost predicate Compiles(nodes: set<Term>, rows: seq<Row>, r: Relation, v: VarId, w: VarId, lo: VarId, hi: VarId) {
    && Bounded(rows, v, w, lo, hi)
    && forall x, y :: HasPair(rows, v, w, x, y) <==> Related(nodes, r, v, w, x, y)
  }

  /** Related terms are both nodes or both not. */
  ghost predicate Stays(nodes: set<Term>, r: Relation) { forall x, y :: r(x, y) ==> (x in nodes <==> y in nodes) }

  lemma {:induction false} DenoteStays(g: Graph, p: PathExpr)
    ensures Stays(Nodes(g), Denote(g, p))
  {
    DenoteInside(g, p);
  }

  lemma {:induction false} LinkCompiles(g: Graph, iri: Term, v: VarId, w: VarId, lo: VarId)
    ensures Compiles(Nodes(g), EvalBgp(g, [TriplePat(Var(v), Const(iri), Var(w))]), Denote(g, Link(iri)), v, w, lo, lo)
  {
    var t := TriplePat(Var(v), Const(iri), Var(w));
    var rows := EvalBgp(g, [t]);
    assert PatternVars([t]) == {v, w} by { assert [t][1..] == []; }
    forall m ensures m in rows <==> m.Keys == {v, w} && Instance(t, m) in g.triples {
      BgpSolutions(g, [t], m);
    }
    EdgesInside(g);
    forall x, y ensures HasPair(rows, v, w, x, y) <==> Related(Nodes(g), Denote(g, Link(iri)), v, w, x, y) {
      if Related(Nodes(g), Denote(g, Link(iri)), v, w, x, y) {
        var m: Row := map[v := x, w := y];
        assert m in rows;
      }
    }
  }

  lemma {:induction false} LeafCompiles(g: Graph, stored: set<Term>, p: PathExpr, v: VarId, w: VarId, lo: VarId)
    requires StoredOk(g, stored) && Exact(p)
    ensures Compiles(Nodes(g), EvalPath(g, stored, Var(v), p, Var(w), map[]), Denote(g, p), v, w, lo, lo)
  {
    var rows := EvalPath(g, stored, Var(v), p, Var(w), map[]);
    forall m ensures m in rows <==> Solves(g, p, v, w, map[], m) { PathRows(g, stored, p, v, w, map[], m); }
    SolutionsCompile(g, rows, p, v, w, lo);
  }

  lemma {:induction false} SolutionsCompile(g: Graph, rows: seq<Row>, p: PathExpr, v: VarId, w: VarId, lo: VarId)
    requires forall m :: m in rows <==> Solves(g, p, v, w, map[], m)
    ensures Compiles(Nodes(g), rows, Denote(g, p), v, w, lo, lo)
  {
    forall x, y ensures HasPair(rows, v, w, x, y) <==> Related(Nodes(g), Denote(g, p), v, w, x, y) {
      if Related(Nodes(g), Denote(g, p), v, w, x, y) {
        var m: Row := map[][v := x][w := y];
        assert Solves(g, p, v, w, map[], m);
        assert m in rows;
      }
    }
  }

  ghost predicate Unites(r: Relation, q: Relation, either: Relation) {
    forall x, y :: either(x, y) <==> r(x, y) || q(x, y)
  }

  ghost predicate Composes(r: Relation, q: Relation, both: Relation) { forall x, y :: both(x, y) <==> Via(r, q, x, y) }

  ghost predicate Via(r: Relation, q: Relation, x: Term, y: Term) { exists m :: r(x, m) && q(m, y) }

  lemma {:induction false} InverseCompiles(nodes: set<Term>, rows: seq<Row>, r: Relation, flipped: Relation, v: VarId,
                                           w: VarId, lo: VarId, hi: VarId)
    requires Stays(nodes, r) && Converse(r, flipped) && Compiles(nodes, rows, r, w, v, lo, hi)
    ensures Compiles(nodes, rows, flipped, v, w, lo, hi)
  {
    forall x, y ensures HasPair(rows, v, w, x, y) <==> Related(nodes, flipped, v, w, x, y) {
      assert HasPair(rows, v, w, x, y) <==> HasPair(rows, w, v, y, x);
    }
  }

  lemma {:induction false} AltCompiles(nodes: set<Term>, left: seq<Row>, right: seq<Row>, r: Relation, q: Relation,
                                       either: Relation, v: VarId, w: VarId, lo: VarId, mid: VarId, hi: VarId)
    requires Unites(r, q, either) && lo <= mid <= hi && Compiles(nodes, left, r, v, w, lo, mid)
             && Compiles(nodes, right, q, v, w, mid, hi)
    ensures Compiles(nodes, left + right, either, v, w, lo, hi)
  {
    forall x, y ensures HasPair(left + right, v, w, x, y) <==> Related(nodes, either, v, w, x, y) {
      assert HasPair(left + right, v, w, x, y) <==> HasPair(left, v, w, x, y) || HasPair(right, v, w, x, y);
    }
  }

  /** Rows over disjoint fresh variables that agree on the middle join. */
  lemma {:induction false} MiddleJoins(left: seq<Row>, right: seq<Row>, v: VarId, w: VarId, mid: VarId, cut: VarId,
                                       hi: VarId, a: Row, b: Row)
    requires v < mid && w < mid && mid < cut <= hi
    requires Bounded(left, v, mid, mid + 1, cut) && Bounded(right, mid, w, cut, hi)
    requires a in left && b in right && a[mid] == b[mid] && (v == w ==> a[v] == b[w])
    ensures Joined(left, right, a, b, a + b) && (a + b)[v] == a[v] && (a + b)[w] == b[w]
  {
    forall u | u in a && u in b ensures a[u] == b[u] {
      assert u == v || u == mid || mid + 1 <= u < cut;
      assert u == mid || u == w || cut <= u < hi;
    }
  }

  /** `rows` are the joins of the two sides. */
  ghost predicate JoinsOf(rows: seq<Row>, left: seq<Row>, right: seq<Row>) {
    forall m :: m in rows <==> InJoin(left, right, m)
  }

  lemma {:induction false} SeqRow(nodes: set<Term>, left: seq<Row>, right: seq<Row>, r: Relation, q: Relation,
                                  both: Relation, v: VarId, w: VarId, mid: VarId, cut: VarId, hi: VarId, a: Row,
                                  b: Row, m: Row)
    requires v < mid && w < mid && mid < cut <= hi && Stays(nodes, r) && Composes(r, q, both)
    requires Compiles(nodes, left, r, v, mid, mid + 1, cut) && Compiles(nodes, right, q, mid, w, cut, hi)
    requires Joined(left, right, a, b, m)
    ensures v in m && w in m && Related(nodes, both, v, w, m[v], m[w])
    ensures forall u :: u in m ==> u == v || u == w || mid <= u < hi
  {
    assert HasPair(left, v, mid, a[v], a[mid]);
    assert HasPair(right, mid, w, b[mid], b[w]);
    assert r(a[v], a[mid]) && q(a[mid], b[w]);
    assert Via(r, q, a[v], b[w]);
    assert m[v] == a[v] && m[w] == b[w];
  }

  lemma {:induction false} SeqPair(nodes: set<Term>, left: seq<Row>, right: seq<Row>, rows: seq<Row>, r: Relation,
                                   q: Relation, both: Relation, v: VarId, w: VarId, mid: VarId, cut: VarId, hi: VarId,
                                   x: Term, y: Term)
    requires v < mid && w < mid && mid < cut <= hi && Stays(nodes, r) && Composes(r, q, both)
             && JoinsOf(rows, left, right)
    requires Compiles(nodes, left, r, v, mid, mid + 1, cut) && Compiles(nodes, right, q, mid, w, cut, hi)
    requires Related(nodes, both, v, w, x, y)
    ensures HasPair(rows, v, w, x, y)
  {
    var z :| r(x, z) && q(z, y);
    assert Related(nodes, r, v, mid, x, z) && Related(nodes, q, mid, w, z, y);
    assert HasPair(left, v, mid, x, z) && HasPair(right, mid, w, z, y);
    var a :| a in left && v in a && mid in a && a[v] == x && a[mid] == z;
    var b :| b in right && mid in b && w in b && b[mid] == z && b[w] == y;
    MiddleJoins(left, right, v, w, mid, cut, hi, a, b);
    assert a + b in rows;
  }

  lemma {:induction false} SeqCompiles(nodes: set<Term>, left: seq<Row>, right: seq<Row>, rows: seq<Row>, r: Relation,
                                       q: Relation, both: Relation, v: VarId, w: VarId, mid: VarId, cut: VarId,
                                       hi: VarId)
    requires v < mid && w < mid && mid < cut <= hi && Stays(nodes, r) && Composes(r, q, both)
             && JoinsOf(rows, left, right)
    requires Compiles(nodes, left, r, v, mid, mid + 1, cut) && Compiles(nodes, right, q, mid, w, cut, hi)
    ensures Compiles(nodes, rows, both, v, w, mid, hi)
  {
    forall m | m in rows
      ensures v in m && w in m && Related(nodes, both, v, w, m[v], m[w])
      ensures forall u :: u in m ==> u == v || u == w || mid <= u < hi
    {
      var a, b :| Joined(left, right, a, b, m);
      SeqRow(nodes, left, right, r, q, both, v, w, mid, cut, hi, a, b, m);
    }
    forall x, y | Related(nodes, both, v, w, x, y) ensures HasPair(rows, v, w, x, y) {
      SeqPair(nodes, left, right, rows, r, q, both, v, w, mid, cut, hi, x, y);
    }
  }

  /** Evaluation and meaning as the translation uses them. */
  type Evaluation = Algebra -> seq<Row>
  type Meaning = PathExpr -> Relation

  ghost predicate Means(ev: Evaluation, den: Meaning, nodes: set<Term>, c: Compiled, p: PathExpr, v: VarId, w: VarId,
                        next: VarId) {
    Compiles(nodes, ev(c.tree), den(p), v, w, next, c.next)
  }

  ghost predicate WholePath(ev: Evaluation, den: Meaning, nodes: set<Term>, p: PathExpr, v: VarId, w: VarId,
                            lo: VarId) {
    Compiles(nodes, ev(Path(Var(v), p, Var(w))), den(p), v, w, lo, lo)
  }

  ghost predicate OneTriple(ev: Evaluation, den: Meaning, nodes: set<Term>, iri: Term, v: VarId, w: VarId, lo: VarId) {
    Compiles(nodes, ev(Bgp([TriplePat(Var(v), Const(iri), Var(w))])), den(Link(iri)), v, w, lo, lo)
  }

  /** What evaluation does with the trees the translation builds. */
  ghost predicate JoinLaw(ev: Evaluation) { forall l, r :: JoinsOf(ev(JoinTrees(l, r)), ev(l), ev(r)) }

  ghost predicate UnionLaw(ev: Evaluation) { forall l, r :: ev(Union(l, r)) == ev(l) + ev(r) }

  ghost predicate TripleLaw(ev: Evaluation, den: Meaning, nodes: set<Term>) {
    forall iri, v, w, lo :: OneTriple(ev, den, nodes, iri, v, w, lo)
  }

  ghost predicate PathLaw(ev: Evaluation, den: Meaning, nodes: set<Term>) {
    forall p, v, w, lo :: Exact(p) ==> WholePath(ev, den, nodes, p, v, w, lo)
  }

  /** What the paths it takes apart denote. */
  ghost predicate StaysLaw(den: Meaning, nodes: set<Term>) { forall p :: Stays(nodes, den(p)) }

  ghost predicate SeqLaw(den: Meaning) { forall a, b :: Composes(den(a), den(b), den(Seq(a, b))) }

  ghost predicate AltLaw(den: Meaning) { forall a, b :: Unites(den(a), den(b), den(Alt(a, b))) }

  ghost predicate InverseLaw(den: Meaning) { forall q :: Converse(den(q), den(Inverse(q))) }

  ghost predicate Laws(ev: Evaluation, den: Meaning, nodes: set<Term>) {
    && JoinLaw(ev) && UnionLaw(ev) && TripleLaw(ev, den, nodes) && PathLaw(ev, den, nodes)
    && StaysLaw(den, nodes) && SeqLaw(den) && AltLaw(den) && InverseLaw(den)
  }

  lemma {:induction false} SeqMeans(ev: Evaluation, den: Meaning, nodes: set<Term>, a: PathExpr, b: PathExpr,
                                    left: Compiled, right: Compiled, v: VarId, w: VarId, next: VarId)
    requires JoinLaw(ev) && StaysLaw(den, nodes) && SeqLaw(den)
    requires v < next && w < next && next + 1 <= left.next <= right.next
    requires Means(ev, den, nodes, left, a, v, next, next + 1) && Means(ev, den, nodes, right, b, next, w, left.next)
    ensures Means(ev, den, nodes, Compiled(JoinTrees(left.tree, right.tree), right.next), Seq(a, b), v, w, next)
  {
    SeqCompiles(nodes, ev(left.tree), ev(right.tree), ev(JoinTrees(left.tree, right.tree)), den(a), den(b),
                den(Seq(a, b)), v, w, next, left.next, right.next);
  }

  lemma {:induction false} AltMeans(ev: Evaluation, den: Meaning, nodes: set<Term>, a: PathExpr, b: PathExpr,
                                    left: Compiled, right: Compiled, v: VarId, w: VarId, next: VarId)
    requires UnionLaw(ev) && AltLaw(den) && next <= left.next <= right.next
    requires Means(ev, den, nodes, left, a, v, w, next) && Means(ev, den, nodes, right, b, v, w, left.next)
    ensures Means(ev, den, nodes, Compiled(Union(left.tree, right.tree), right.next), Alt(a, b), v, w, next)
  {
    AltCompiles(nodes, ev(left.tree), ev(right.tree), den(a), den(b), den(Alt(a, b)), v, w, next, left.next,
        right.next);
  }

  lemma {:induction false} InverseMeans(ev: Evaluation, den: Meaning, nodes: set<Term>, q: PathExpr, c: Compiled,
                                        v: VarId, w: VarId, next: VarId)
    requires StaysLaw(den, nodes) && InverseLaw(den) && Means(ev, den, nodes, c, q, w, v, next)
    ensures Means(ev, den, nodes, c, Inverse(q), v, w, next)
  {
    InverseCompiles(nodes, ev(c.tree), den(q), den(Inverse(q)), v, w, next, c.next);
  }

  /** For variable endpoints, whatever the nesting of sequences, alternatives and
      inverses, the translated tree relates exactly the pairs the path denotes. */
  lemma {:induction false} CompiledMeans(ev: Evaluation, den: Meaning, nodes: set<Term>, p: PathExpr, v: VarId,
                                         w: VarId, next: VarId)
    requires Laws(ev, den, nodes) && v < next && w < next && Exact(p)
    ensures Means(ev, den, nodes, PathTriple(Var(v), p, Var(w), next), p, v, w, next)
    decreases p
  {
    match p
    case Link(iri) => assert OneTriple(ev, den, nodes, iri, v, w, next);
    case Inverse(q) =>
      CompiledMeans(ev, den, nodes, q, w, v, next);
      InverseMeans(ev, den, nodes, q, PathTriple(Var(w), q, Var(v), next), v, w, next);
    case Seq(a, b) =>
      var left := PathTriple(Var(v), a, Var(next), next + 1);
      CompiledMeans(ev, den, nodes, a, v, next, next + 1);
      CompiledMeans(ev, den, nodes, b, next, w, left.next);
      SeqMeans(ev, den, nodes, a, b, left, PathTriple(Var(next), b, Var(w), left.next), v, w, next);
    case Alt(a, b) =>
      var left := PathTriple(Var(v), a, Var(w), next);
      CompiledMeans(ev, den, nodes, a, v, w, next);
      CompiledMeans(ev, den, nodes, b, v, w, left.next);
      AltMeans(ev, den, nodes, a, b, left, PathTriple(Var(v), b, Var(w), left.next), v, w, next);
    case _ => assert WholePath(ev, den, nodes, p, v, w, next);
  }

  function EvalIn(en: Engine, sc: Scope): Evaluation { (a: Algebra) => Eval(en, sc, a) }

  ghost function DenoteIn(g: Graph): Meaning { (p: PathExpr) => Denote(g, p) }

  lemma {:induction false} DenoteLaws(g: Graph)
    ensures StaysLaw(DenoteIn(g), Nodes(g)) && SeqLaw(DenoteIn(g)) && AltLaw(DenoteIn(g)) && InverseLaw(DenoteIn(g))
  {
    forall p ensures Stays(Nodes(g), DenoteIn(g)(p)) { DenoteStays(g, p); }
    forall a, b ensures Composes(DenoteIn(g)(a), DenoteIn(g)(b), DenoteIn(g)(Seq(a, b))) { SeqComposes(g, a, b); }
  }

  lemma {:induction false} SeqComposes(g: Graph, a: PathExpr, b: PathExpr)
    ensures Composes(Denote(g, a), Denote(g, b), Denote(g, Seq(a, b)))
  {
    forall x, y ensures Denote(g, Seq(a, b))(x, y) <==> Via(Denote(g, a), Denote(g, b), x, y) {
      assert Denote(g, Seq(a, b))(x, y) == Compose(Denote(g, a), Denote(g, b))(x, y);
    }
  }

  lemma {:induction false} JoinTreesJoin(en: Engine, sc: Scope, l: Algebra, r: Algebra)
    ensures JoinsOf(Eval(en, sc, JoinTrees(l, r)), Eval(en, sc, l), Eval(en, sc, r))
  {
    forall m ensures m in Eval(en, sc, JoinTrees(l, r)) <==> InJoin(Eval(en, sc, l), Eval(en, sc, r), m) {
      JoinTreesRows(en, sc, l, r, m);
    }
  }

  lemma {:induction false} TreeLaws(en: Engine, sc: Scope)
    ensures JoinLaw(EvalIn(en, sc)) && UnionLaw(EvalIn(en, sc))
  {
    forall l, r ensures JoinsOf(EvalIn(en, sc)(JoinTrees(l, r)), EvalIn(en, sc)(l), EvalIn(en, sc)(r)) {
      JoinTreesJoin(en, sc, l, r);
    }
  }

  lemma {:induction false} LinkMeans(en: Engine, sc: Scope, iri: Term, v: VarId, w: VarId, lo: VarId)
    ensures OneTriple(EvalIn(en, sc), DenoteIn(GraphAt(en, sc)), Nodes(GraphAt(en, sc)), iri, v, w, lo)
  {
    LinkCompiles(GraphAt(en, sc), iri, v, w, lo);
  }

  lemma {:induction false} WholeMeans(en: Engine, sc: Scope, p: PathExpr, v: VarId, w: VarId, lo: VarId)
    requires StoredOk(GraphAt(en, sc), en.stored) && Exact(p)
    ensures WholePath(EvalIn(en, sc), DenoteIn(GraphAt(en, sc)), Nodes(GraphAt(en, sc)), p, v, w, lo)
  {
    LeafCompiles(GraphAt(en, sc), en.stored, p, v, w, lo);
  }

  /** The evaluator and section 18.4 of SPARQL 1.1 Query obey the laws. */
  lemma {:induction false} EvaluatorLaws(en: Engine, sc: Scope, ev: Evaluation, den: Meaning, nodes: set<Term>)
    requires StoredOk(GraphAt(en, sc), en.stored)
    requires ev == EvalIn(en, sc) && den == DenoteIn(GraphAt(en, sc)) && nodes == Nodes(GraphAt(en, sc))
    ensures Laws(ev, den, nodes)
  {
    TreeLaws(en, sc);
    DenoteLaws(GraphAt(en, sc));
    forall iri, v, w, lo ensures OneTriple(ev, den, nodes, iri, v, w, lo) { LinkMeans(en, sc, iri, v, w, lo); }
    forall p, v, w, lo | Exact(p) ensures WholePath(ev, den, nodes, p, v, w, lo) { WholeMeans(en, sc, p, v, w, lo); }
  }

  lemma {:induction false} PairsAgree(ev: Evaluation, den: Meaning, nodes: set<Term>, p: PathExpr, v: VarId, w: VarId,
                                      next: VarId, x: Term, y: Term)
    requires Laws(ev, den, nodes) && v < next && w < next && Exact(p)
    ensures HasPair(ev(PathTriple(Var(v), p, Var(w), next).tree), v, w, x, y) <==> Related(nodes, den(p), v, w, x, y)
    ensures HasPair(ev(Path(Var(v), p, Var(w))), v, w, x, y) <==> Related(nodes, den(p), v, w, x, y)
  {
    CompiledMeans(ev, den, nodes, p, v, w, next);
    assert WholePath(ev, den, nodes, p, v, w, next);
  }

  /** Decomposing a path loses and adds no endpoint pair against evaluating it
      whole, and both are the pairs it denotes. */
  lemma {:induction false} CompileAgreesWithPath(en: Engine, sc: Scope, p: PathExpr, v: VarId, w: VarId, next: VarId,
                                                 x: Term, y: Term)
    requires v < next && w < next && StoredOk(GraphAt(en, sc), en.stored) && Exact(p)
    ensures HasPair(Eval(en, sc, PathTriple(Var(v), p, Var(w), next).tree), v, w, x, y)
            <==> x in Nodes(GraphAt(en, sc)) && Denote(GraphAt(en, sc), p)(x, y) && (v == w ==> x == y)
    ensures HasPair(Eval(en, sc, PathTriple(Var(v), p, Var(w), next).tree), v, w, x, y)
            <==> HasPair(Eval(en, sc, Path(Var(v), p, Var(w))), v, w, x, y)
  {
    EvaluatorLaws(en, sc, EvalIn(en, sc), DenoteIn(GraphAt(en, sc)), Nodes(GraphAt(en, sc)));
    PairsAgree(EvalIn(en, sc), DenoteIn(GraphAt(en, sc)), Nodes(GraphAt(en, sc)), p, v, w, next, x, y);
  }
}

/** Path patterns with constant endpoints: which rows they yield
    (crates/graphy-engine/src/eval.rs, `eval_path`, `reachable`). */
module PathEnds {
  import opened Seqs
  import opened Terms
  import opened Store
  import opened Rows
  import opened Paths
  import opened PathExact
  import opened PathModes

  /** From a constant exactly the related terms are reached, zero-length pairs of a
      constant outside the graph, or outside the store, included. */
  lemma {:induction false} FromConstant(g: Graph, stored: set<Term>, p: PathExpr, from: Term, y: Term)
    requires StoredOk(g, stored) && NpsOk(p, false)
    ensures NoDup(Reachable(g, stored, p, from, true))
    ensures y in Reachable(g, stored, p, from, true) <==> Denote(g, p)(from, y)
  {
    ReachExact(g, p, from, y);
    NullableExact(g, p, from);
    DenoteInside(g, p);
  }

  /** A constant subject: the row extended by each related object, once. */
  lemma {:induction false} ConstantSubject(g: Graph, stored: set<Term>, p: PathExpr, a: Term, w: VarId, row: Row,
                                           m: Row)
    requires StoredOk(g, stored) && NpsOk(p, false)
    ensures NoDup(EvalPath(g, stored, Const(a), p, Var(w), row))
    ensures m in EvalPath(g, stored, Const(a), p, Var(w), row) <==>
            w in m && Denote(g, p)(a, m[w]) && m == row[w := m[w]] && (w in row ==> row[w] == m[w])
  {
    if w in row {
      FromConstant(g, stored, p, a, row[w]);
      assert row[w := row[w]] == row;
    } else {
      forall y { FromConstant(g, stored, p, a, y); }
      BindAll(w, row, Reachable(g, stored, p, a, true), m);
    }
  }

  /** A constant object: the row extended by each related subject, once; a subject
      the row already binds must be a node of the graph. */
  lemma {:induction false} ConstantObject(g: Graph, stored: set<Term>, p: PathExpr, v: VarId, b: Term, row: Row, m: Row)
    requires StoredOk(g, stored) && Exact(p)
    ensures NoDup(EvalPath(g, stored, Var(v), p, Const(b), row))
    ensures m in EvalPath(g, stored, Var(v), p, Const(b), row) <==>
            v in m && Denote(g, p)(m[v], b) && m == row[v := m[v]] &&
            (v in row ==> row[v] == m[v] && row[v] in Nodes(g))
  {
    if v in row {
      ReachableExact(g, stored, p, row[v], b);
      assert row[v := row[v]] == row;
    } else {
      forall x { FromConstant(g, stored, Inverse(p), b, x); }
      BindAll(v, row, Reachable(g, stored, Inverse(p), b, true), m);
    }
  }

  /** Two constants: the row, once, when they are related. */
  lemma {:induction false} ConstantEnds(g: Graph, stored: set<Term>, p: PathExpr, a: Term, b: Term, row: Row)
    requires StoredOk(g, stored) && NpsOk(p, false)
    ensures EvalPath(g, stored, Const(a), p, Const(b), row) == if Denote(g, p)(a, b) then [row] else []
  {
    FromConstant(g, stored, p, a, b);
  }

  /** A term outside the store is related to itself by a nullable path and to
      nothing else. */
  lemma {:induction false} OutsideStore(g: Graph, stored: set<Term>, p: PathExpr, a: Term, y: Term)
    requires StoredOk(g, stored) && a !in stored
    ensures Denote(g, p)(a, y) <==> a == y && Nullable(p)
  {
    NullableExact(g, p, a);
    DenoteInside(g, p);
  }
}

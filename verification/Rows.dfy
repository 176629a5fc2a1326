/** Solution rows: partial maps from interned variables to terms, and the
    pattern positions that read them. */
module Rows {
  import opened Seqs
  import opened Terms

  type VarId = nat

  type Row = map<VarId, Term>

  /** A pattern position: a constant term or a variable. */
  datatype Pos = Const(t: Term) | Var(v: VarId)

  datatype TriplePat = TriplePat(s: Pos, p: Pos, o: Pos)

  /** Equal on shared variables; the merge of compatible rows is `a + b`. */
  predicate Compatible(a: Row, b: Row) {
    forall v | v in a && v in b :: a[v] == b[v]
  }

  function PosVars(p: Pos): set<VarId> {
    match p
    case Const(_) => {}
    case Var(v) => {v}
  }

  function PatVars(t: TriplePat): set<VarId> { PosVars(t.s) + PosVars(t.p) + PosVars(t.o) }

  /** The value a position has under a row, if any. */
  function Lookup(p: Pos, row: Row): Option<Term> {
    match p
    case Const(t) => Some(t)
    case Var(v) => if v in row then Some(row[v]) else None
  }
}

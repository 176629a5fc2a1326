/** What the evaluator sees of a storage snapshot: one graph of terms per scope,
    and a scan that lists the triples matching a pattern in whatever index order
    the storage layer chose. */
module Store {
  import opened Seqs
  import opened Terms

  datatype Triple = Triple(s: Term, p: Term, o: Term)

  /** Storage pattern: fixed columns, `None` for an unconstrained one. */
  datatype Pattern = Pattern(s: Option<Term>, p: Option<Term>, o: Option<Term>)

  predicate Fixes(slot: Option<Term>, t: Term) { slot.None? || slot.value == t }

  predicate Matches(pat: Pattern, t: Triple) {
    Fixes(pat.s, t.s) && Fixes(pat.p, t.p) && Fixes(pat.o, t.o)
  }

  /** `scan` is the storage layer's answer, `estimate` its costing heuristic. */
  datatype RawGraph = RawGraph(triples: set<Triple>, scan: Pattern -> seq<Triple>, estimate: Pattern -> nat)

  /** Scans answer exactly the matching triples, each once, in any order;
      nothing is known about estimates. */
  ghost predicate ValidGraph(g: RawGraph) {
    forall pat :: NoDup(g.scan(pat)) &&
                  forall t :: t in g.scan(pat) <==> t in g.triples && Matches(pat, t)
  }

  type Graph = g: RawGraph | ValidGraph(g) witness RawGraph({}, _ => [], _ => 0)

  const EMPTY_GRAPH: Graph := RawGraph({}, _ => [], _ => 0)

  ghost function Nodes(g: Graph): set<Term> {
    (set t | t in g.triples :: t.s) + (set t | t in g.triples :: t.o)
  }
}

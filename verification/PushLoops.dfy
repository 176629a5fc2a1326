/** The mutable side of the filter pushdown (crates/graphy-algebra/src/rewrite.rs,
    `push_filters`, `split_and`, `pushable_vars`) and of `visible_vars`
    (crates/graphy-algebra/src/translate.rs). */
module PushLoops {
  import opened Seqs
  import opened Expressions
  import opened AlgebraTree
  import opened Pushdown

  /** Appends the conjuncts left to right. */
  method SplitInto(e: Expression, before: seq<Expression>) returns (out: seq<Expression>)
    ensures out == before + SplitAnd(e)
  {
    if e.And? {
      out := SplitInto(e.a, before);
      out := SplitInto(e.b, out);
    } else {
      out := before + [e];
    }
  }

  lemma {:induction false} PushAllSnoc(cs: seq<Expression>, c: Expression, acc: Algebra)
    ensures var k := PushAll(cs, acc);
            var p := TryPush(c, k.tree);
            PushAll(cs + [c], acc) == Kept(k.conds + (if p.left.Some? then [p.left.value] else []), p.tree)
    decreases |cs|
  {
    if cs == [] {
      assert cs + [c] == [c] && [c][1..] == [];
    } else {
      assert (cs + [c])[1..] == cs[1..] + [c];
      PushAllSnoc(cs[1..], c, TryPush(cs[0], acc).tree);
    }
  }

  lemma {:induction false} WrapAllSnoc(kept: seq<Expression>, i: nat, x: Algebra)
    requires i < |kept|
    ensures WrapAll(kept[i..], x) == Filter(kept[i], WrapAll(kept[i + 1..], x))
  {
    assert kept[i..][0] == kept[i] && kept[i..][1..] == kept[i + 1..];
  }

  /** Flattens a stack of filters into one conjunct list. */
  method Flatten(a: Algebra) returns (conjuncts: seq<Expression>, inner: Algebra)
    requires a.Filter?
    ensures conjuncts == Conjuncts(a) && inner == Below(a)
  {
    conjuncts := SplitInto(a.cond, []);
    inner := a.input;
    while inner.Filter?
      invariant conjuncts + Conjuncts(inner) == Conjuncts(a) && Below(inner) == Below(a)
      decreases inner
    {
      conjuncts := SplitInto(inner.cond, conjuncts);
      inner := inner.input;
    }
  }

  method PushEach(conjuncts: seq<Expression>, start: Algebra) returns (kept: seq<Expression>, acc: Algebra)
    ensures Kept(kept, acc) == PushAll(conjuncts, start)
  {
    kept, acc := [], start;
    for i := 0 to |conjuncts|
      invariant Kept(kept, acc) == PushAll(conjuncts[..i], start)
    {
      TakeNext(conjuncts, i);
      PushAllSnoc(conjuncts[..i], conjuncts[i], start);
      var p := TryPush(conjuncts[i], acc);
      acc := p.tree;
      if p.left.Some? { kept := kept + [p.left.value]; }
    }
    TakeAll(conjuncts);
  }

  /** Re-wraps the leftovers, last one innermost. */
  method WrapKept(kept: seq<Expression>, start: Algebra) returns (acc: Algebra)
    ensures acc == WrapAll(kept, start)
  {
    acc := start;
    for i := |kept| downto 0
      invariant acc == WrapAll(kept[i..], start)
    {
      WrapAllSnoc(kept, i, start);
      acc := Filter(kept[i], acc);
    }
    assert kept[0..] == kept;
  }

  /** The filter arm of `push_filters`. */
  method PushStack(a: Algebra) returns (acc: Algebra)
    requires a.Filter?
    ensures acc == PushFilters(a)
  {
    var conjuncts, inner := Flatten(a);
    acc := PushFilters(inner);
    var kept;
    kept, acc := PushEach(conjuncts, acc);
    acc := WrapKept(kept, acc);
  }
}

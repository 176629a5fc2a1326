/** The BitmapTriples arrays: how `write_to` fills them
    (crates/graphy-hdt/src/writer.rs) and how `each_triple_ids` walks them
    (crates/graphy-hdt/src/reader.rs). */
module BitmapTriples {
  import opened Seqs
  import opened Section

  datatype Ids = Ids(s: nat, p: nat, o: nat)

  /** Subjects start at 1 and never skip a number. */
  ghost predicate Dense(ids: seq<Ids>) {
    (ids != [] ==> ids[0].s == 1) && StepsByOne(ids, 0)
  }

  ghost predicate StepsByOne(ids: seq<Ids>, k: nat) {
    forall j :: k < j < |ids| ==> ids[j].s == ids[j - 1].s || ids[j].s == ids[j - 1].s + 1
  }

  /** The four arrays: predicates and last-pair flags, objects and last-object flags. */
  datatype Arrays = Arrays(sy: seq<nat>, ey: seq<bool>, sz: seq<nat>, ez: seq<bool>)

  // ------------------------------------------------------- writing

  predicate EndsPair(ids: seq<Ids>, k: nat)
    requires k < |ids|
  {
    k + 1 == |ids| || ids[k + 1].s != ids[k].s || ids[k + 1].p != ids[k].p
  }

  predicate EndsSubject(ids: seq<Ids>, k: nat)
    requires k < |ids|
  {
    k + 1 == |ids| || ids[k + 1].s != ids[k].s
  }

  /** Triple `k` continues the pair of the one before it. */
  predicate Open(ids: seq<Ids>, k: nat)
    requires k <= |ids|
  {
    k > 0 && !EndsPair(ids, k - 1)
  }

  /** The arrays after the first `k` triples. */
  function Filled(ids: seq<Ids>, k: nat): (r: Arrays)
    requires k <= |ids|
    ensures |r.sz| == k && |r.ez| == k
  {
    if k == 0 then Arrays([], [], [], [])
    else
      var a := Filled(ids, k - 1);
      Arrays(if Open(ids, k - 1) then a.sy else a.sy + [ids[k - 1].p],
             if EndsPair(ids, k - 1) then a.ey + [EndsSubject(ids, k - 1)] else a.ey,
             a.sz + [ids[k - 1].o],
             a.ez + [EndsPair(ids, k - 1)])
  }

  /** The loop of `write_to`, which looks one triple back and one ahead. */
  method Fill(ids: seq<Ids>) returns (a: Arrays)
    ensures a == Filled(ids, |ids|)
  {
    var sy: seq<nat>, ey: seq<bool>, sz: seq<nat>, ez: seq<bool> := [], [], [], [];
    for k := 0 to |ids|
      invariant Arrays(sy, ey, sz, ez) == Filled(ids, k)
    {
      var t := ids[k];
      var newPair := k + 1 == |ids| || ids[k + 1].s != t.s || ids[k + 1].p != t.p;
      var newSubject := k + 1 == |ids| || ids[k + 1].s != t.s;
      if k == 0 || ids[k - 1].s != t.s || ids[k - 1].p != t.p {
        sy := sy + [t.p];
      }
      sz := sz + [t.o];
      ez := ez + [newPair];
      if newPair {
        ey := ey + [newSubject];
      }
    }
    a := Arrays(sy, ey, sz, ez);
  }

  // ------------------------------------------------------- reading

  /** What the walk emits from subject `s`, pair `y` and position `z` on; `open`
      inside a pair. `None` when a position lies outside its array. */
  function Walk(a: Arrays, s: nat, y: nat, z: nat, open: bool): Option<seq<Ids>>
    decreases |a.sz| - z
  {
    if !open && z >= |a.sz| then Some([])
    else if y >= |a.sy| || z >= |a.sz| || z >= |a.ez| || (a.ez[z] && y >= |a.ey|) then None
    else Prepend([Ids(s, a.sy[y], a.sz[z])],
                 if a.ez[z] then Walk(a, if a.ey[y] then s + 1 else s, y + 1, z + 1, false)
                 else Walk(a, s, y, z + 1, true))
  }

  function Prepend(out: seq<Ids>, r: Option<seq<Ids>>): Option<seq<Ids>> {
    match r
    case None => None
    case Some(rest) => Some(out + rest)
  }

  lemma {:induction false} PrependTwice(out: seq<Ids>, x: seq<Ids>, r: Option<seq<Ids>>)
    ensures Prepend(out, Prepend(x, r)) == Prepend(out + x, r)
  {
    if r.Some? { assert out + (x + r.value) == out + x + r.value; }
  }

  lemma {:induction false} PrependNothing(out: seq<Ids>, r: Option<seq<Ids>>)
    ensures Prepend([], r) == r && Prepend(out, Some([])) == Some(out)
  {
    if r.Some? { assert [] + r.value == r.value; }
    assert out + [] == out;
  }

  /** `each_triple_ids` over the stored arrays. */
  method EachTripleIds(sy: LogSeq, ey: Bitmap, sz: LogSeq, ez: Bitmap, ghost a: Arrays) returns (r: Option<seq<Ids>>)
    requires sy.Stores(a.sy) && ey.Stores(a.ey) && sz.Stores(a.sz) && ez.Stores(a.ez)
    ensures r == Walk(a, 1, 0, 0, false)
  {
    var out: seq<Ids> := [];
    var s: nat, y: nat, z: nat := 1, 0, 0;
    PrependNothing([], Walk(a, 1, 0, 0, false));
    while z < sz.n
      invariant Walk(a, 1, 0, 0, false) == Prepend(out, Walk(a, s, y, z, false))
      decreases sz.n - z
    {
      if y >= sy.n {
        return None;
      }
      var p := GetValue(sy, y, a.sy);
      ghost var open, start := false, z;
      while true
        invariant start <= z && (open || z < |a.sz|) && (open ==> start < z)
        invariant Walk(a, 1, 0, 0, false) == Prepend(out, Walk(a, s, y, z, open))
        decreases sz.n - z
      {
        if z >= sz.n || z >= ez.nbits {
          return None;
        }
        var o := GetValue(sz, z, a.sz);
        var last := GetFlag(ez, z, a.ez);
        if last && y >= ey.nbits {
          return None;
        }
        ghost var rest := if last then Walk(a, if a.ey[y] then s + 1 else s, y + 1, z + 1, false)
                          else Walk(a, s, y, z + 1, true);
        PrependTwice(out, [Ids(s, p, o)], rest);
        out := out + [Ids(s, p, o)];
        z := z + 1;
        open := true;
        if last {
          break;
        }
      }
      var lastPair := GetFlag(ey, y, a.ey);
      y := y + 1;
      if lastPair {
        s := s + 1;
      }
    }
    PrependNothing(out, None);
    return Some(out);
  }

  // ------------------------------------------------------- round trip

  lemma {:induction false} FilledPrefix(ids: seq<Ids>, k: nat, n: nat)
    requires k <= n <= |ids|
    ensures Filled(ids, k).sy <= Filled(ids, n).sy && Filled(ids, k).ey <= Filled(ids, n).ey
    ensures Filled(ids, k).sz <= Filled(ids, n).sz && Filled(ids, k).ez <= Filled(ids, n).ez
    decreases n
  {
    if k < n { FilledPrefix(ids, k, n - 1); }
  }

  /** There is one pair start more than pair ends exactly inside a pair, and then
      the last predicate listed is the current one. */
  lemma {:induction false} Counts(ids: seq<Ids>, k: nat)
    requires k <= |ids|
    ensures var a := Filled(ids, k);
            && |a.sy| == |a.ey| + (if Open(ids, k) then 1 else 0)
            && (Open(ids, k) ==> k < |ids| && a.sy[|a.ey|] == ids[k].p)
  {
    if k > 0 { Counts(ids, k - 1); }
  }

  /** At triple `k` the walk finds its predicate, object and flags. */
  lemma {:induction false} FoundAt(ids: seq<Ids>, k: nat, next: nat)
    requires k < |ids| && next == k + 1
    ensures var a, y := Filled(ids, |ids|), |Filled(ids, k).ey|;
            && y < |a.sy| && a.sy[y] == ids[k].p
            && a.sz[k] == ids[k].o && a.ez[k] == EndsPair(ids, k)
            && (EndsPair(ids, k) ==> y < |a.ey| && a.ey[y] == EndsSubject(ids, k) && |Filled(ids, next).ey| == y + 1)
            && (!EndsPair(ids, k) ==> |Filled(ids, next).ey| == y)
  {
    Counts(ids, k);
    FilledPrefix(ids, next, |ids|);
    var b, c := Filled(ids, k), Filled(ids, next);
    assert c.sz[k] == ids[k].o && c.ez[k] == EndsPair(ids, k);
    assert c.sy[|b.ey|] == ids[k].p;
  }

  /** The triples from `k` on with their subjects counted from `s`. */
  function Counted(ids: seq<Ids>, k: nat, s: nat): (r: seq<Ids>)
    requires k <= |ids|
    ensures |r| == |ids| - k
    decreases |ids| - k
  {
    if k == |ids| then []
    else [Ids(s, ids[k].p, ids[k].o)] + Counted(ids, k + 1, if EndsSubject(ids, k) then s + 1 else s)
  }

  lemma {:induction false} WalkFrom(ids: seq<Ids>, k: nat, y: nat, open: bool, s: nat)
    requires k <= |ids| && y == |Filled(ids, k).ey| && open == Open(ids, k)
    ensures Walk(Filled(ids, |ids|), s, y, k, open) == Some(Counted(ids, k, s))
    decreases |ids| - k
  {
    if k < |ids| {
      var next := k + 1;
      FoundAt(ids, k, next);
      var ends := EndsPair(ids, k);
      WalkFrom(ids, next, if ends then y + 1 else y, !ends, if EndsSubject(ids, k) then s + 1 else s);
    }
  }

  /** For every list, the walk over the written arrays stays inside them and emits
      the list in order with its subjects renumbered 1, 2, ... by runs; every pair
      has its flag. */
  lemma {:induction false} WrittenReads(ids: seq<Ids>)
    ensures Walk(Filled(ids, |ids|), 1, 0, 0, false) == Some(Counted(ids, 0, 1))
    ensures |Filled(ids, |ids|).sy| == |Filled(ids, |ids|).ey|
  {
    WalkFrom(ids, 0, 0, false, 1);
    Counts(ids, |ids|);
  }

  lemma {:induction false} SameList(x: Ids, xs: seq<Ids>, y: Ids, ys: seq<Ids>)
    ensures [x] + xs == [y] + ys <==> x == y && xs == ys
  {
    if [x] + xs == [y] + ys { assert x == ([x] + xs)[0] && xs == ([x] + xs)[1..] && ys == ([y] + ys)[1..]; }
  }

  lemma {:induction false} StepsFrom(ids: seq<Ids>, k: nat, next: nat)
    requires next == k + 1 <= |ids|
    ensures StepsByOne(ids, k) <==>
            (next < |ids| ==> (ids[next].s == ids[k].s || ids[next].s == ids[k].s + 1) && StepsByOne(ids, next))
  {
  }

  lemma {:induction false} CountedIff(ids: seq<Ids>, k: nat, s: nat)
    requires k <= |ids|
    ensures Counted(ids, k, s) == ids[k..] <==> (k < |ids| ==> s == ids[k].s && StepsByOne(ids, k))
    decreases |ids| - k
  {
    if k < |ids| {
      var next := k + 1;
      var s' := if EndsSubject(ids, k) then s + 1 else s;
      CountedIff(ids, next, s');
      assert ids[k..] == [ids[k]] + ids[next..];
      SameList(Ids(s, ids[k].p, ids[k].o), Counted(ids, next, s'), ids[k], ids[next..]);
      StepsFrom(ids, k, next);
    }
  }

  /** The written list comes back exactly when its subjects are 1, 2, ... with
      none missing. */
  lemma {:induction false} RoundTripIff(ids: seq<Ids>)
    ensures Walk(Filled(ids, |ids|), 1, 0, 0, false) == Some(ids) <==> Dense(ids)
  {
    WrittenReads(ids);
    CountedIff(ids, 0, 1);
    assert ids[0..] == ids;
  }
}

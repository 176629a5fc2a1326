/** Id quads: how `write_to` splits the sorted list into distinct triples and
    per-graph layers (crates/graphy-hdt/src/writer.rs), how the annex stores the
    layers (crates/graphy-hdt/src/quads.rs) and how `each_quad_ids` puts them
    together again (crates/graphy-hdt/src/reader.rs). */
module QuadIds {
  import opened Seqs
  import opened BitmapTriples

  datatype Quad = Quad(t: Ids, g: nat)

  predicate LessTriple(a: Ids, b: Ids) {
    a.s < b.s || (a.s == b.s && (a.p < b.p || (a.p == b.p && a.o < b.o)))
  }

  predicate LessQuad(a: Quad, b: Quad) { LessTriple(a.t, b.t) || (a.t == b.t && a.g < b.g) }

  ghost predicate Ascending(qs: seq<Quad>) { forall i, j :: 0 <= i < j < |qs| ==> LessQuad(qs[i], qs[j]) }

  // ------------------------------------------------------- sort and dedup

  function InsertQuad(q: Quad, qs: seq<Quad>): seq<Quad> {
    if qs == [] then [q]
    else if q == qs[0] then qs
    else if LessQuad(q, qs[0]) then [q] + qs
    else [qs[0]] + InsertQuad(q, qs[1..])
  }

  lemma {:induction false} InsertQuadMembers(q: Quad, qs: seq<Quad>, x: Quad)
    ensures x in InsertQuad(q, qs) <==> x == q || x in qs
  {
    if qs != [] {
      assert x in qs <==> x == qs[0] || x in qs[1..];
      InsertQuadMembers(q, qs[1..], x);
    }
  }

  lemma {:induction false} InsertQuadAscending(q: Quad, qs: seq<Quad>)
    requires Ascending(qs)
    ensures Ascending(InsertQuad(q, qs))
  {
    if qs != [] && q != qs[0] && !LessQuad(q, qs[0]) {
      var rest := qs[1..];
      InsertQuadAscending(q, rest);
      forall j | 0 <= j < |InsertQuad(q, rest)| ensures LessQuad(qs[0], InsertQuad(q, rest)[j]) {
        var x := InsertQuad(q, rest)[j];
        InsertQuadMembers(q, rest, x);
        if x != q {
          var i :| 0 <= i < |rest| && rest[i] == x;
          assert rest[i] == qs[i + 1];
        }
      }
    }
  }

  /** `sort_unstable` and `dedup`. */
  method SortDedup(qs: seq<Quad>) returns (r: seq<Quad>)
    ensures Ascending(r) && forall q :: q in r <==> q in qs
  {
    r := [];
    for i := 0 to |qs|
      invariant Ascending(r) && forall q :: q in r <==> q in qs[..i]
    {
      InsertQuadAscending(qs[i], r);
      forall q ensures q in InsertQuad(qs[i], r) <==> q in qs[..i + 1] {
        InsertQuadMembers(qs[i], r, q);
        TakeNext(qs, i);
      }
      r := InsertQuad(qs[i], r);
    }
    TakeAll(qs);
  }

  // ------------------------------------------------------- splitting

  datatype Parts = Parts(triples: seq<Ids>, layers: seq<seq<nat>>)

  /** `count` layers without an index. */
  function NoLayers(count: nat): seq<seq<nat>> { seq(count, i => []) }

  predicate Repeats(triples: seq<Ids>, t: Ids) { triples != [] && triples[|triples| - 1] == t }

  /** One round of the loop: a new triple is listed, its index joins the layer. */
  function Place(parts: Parts, q: Quad): Parts
    requires q.g < |parts.layers|
  {
    var triples := if Repeats(parts.triples, q.t) then parts.triples else parts.triples + [q.t];
    Parts(triples, parts.layers[q.g := parts.layers[q.g] + [|triples| - 1]])
  }

  function Split(qs: seq<Quad>, n: nat, count: nat): (r: Parts)
    requires n <= |qs| && forall q :: q in qs ==> q.g < count
    ensures |r.layers| == count
  {
    if n == 0 then Parts([], NoLayers(count)) else Place(Split(qs, n - 1, count), qs[n - 1])
  }

  /** Without named graphs the layers stay as they are. */
  method SplitLoop(qs: seq<Quad>, count: nat, quads: bool) returns (r: Parts)
    requires forall q :: q in qs ==> q.g < if quads then count else 1
    ensures r.triples == Split(qs, |qs|, if quads then count else 1).triples
    ensures quads ==> r == Split(qs, |qs|, count)
  {
    var triples: seq<Ids> := [];
    var layers: seq<seq<nat>> := NoLayers(count);
    for n := 0 to |qs|
      invariant triples == Split(qs, n, if quads then count else 1).triples
      invariant quads ==> Parts(triples, layers) == Split(qs, n, count)
    {
      var q := qs[n];
      if !Repeats(triples, q.t) {
        triples := triples + [q.t];
      }
      if quads {
        layers := layers[q.g := layers[q.g] + [|triples| - 1]];
      }
    }
    r := Parts(triples, layers);
  }

  // ------------------------------------------------------- the annex

  /** Per layer, chunk `c` holds the offsets of the indices in `[c * 2^29, (c + 1) * 2^29)`. */
  datatype Annex = Annex(layers: seq<seq<set<nat>>>)

  predicate Has(a: Annex, g: nat, k: nat) {
    g < |a.layers| && k / 0x2000_0000 < |a.layers[g]| && k % 0x2000_0000 in a.layers[g][k / 0x2000_0000]
  }

  ghost predicate Stores(a: Annex, layers: seq<seq<nat>>) {
    && |a.layers| == |layers|
    && forall g, k :: 0 <= g < |layers| && k >= 0 ==> (Has(a, g, k) <==> k in layers[g])
  }

  method ChunkLayer(bits: seq<nat>, chunks: nat) returns (r: seq<set<nat>>)
    requires forall k :: k in bits ==> k / 0x2000_0000 < chunks
    ensures |r| == chunks
    ensures forall k: nat :: k / 0x2000_0000 < chunks && k % 0x2000_0000 in r[k / 0x2000_0000] <==> k in bits
  {
    r := seq(chunks, i => {});
    for i := 0 to |bits|
      invariant |r| == chunks
      invariant forall k: nat :: k / 0x2000_0000 < chunks && k % 0x2000_0000 in r[k / 0x2000_0000] <==> k in bits[..i]
    {
      var k := bits[i];
      assert k in bits;
      TakeNext(bits, i);
      r := r[k / 0x2000_0000 := r[k / 0x2000_0000] + {k % 0x2000_0000}];
    }
    TakeAll(bits);
  }

  /** `GraphAnnex::write`: membership reads back for every layer and index. */
  method WriteAnnex(layers: seq<seq<nat>>, numbits: nat) returns (a: Annex)
    requires forall g, k :: 0 <= g < |layers| && k in layers[g] ==> k < numbits
    ensures Stores(a, layers)
  {
    var ceil := (numbits + 0x1FFF_FFFF) / 0x2000_0000;
    var chunks := if ceil > 1 then ceil else 1;
    var out: seq<seq<set<nat>>> := [];
    for g := 0 to |layers|
      invariant |out| == g
      invariant forall h, k :: 0 <= h < g && k >= 0 ==> (Has(Annex(out), h, k) <==> k in layers[h])
    {
      var layer := ChunkLayer(layers[g], chunks);
      ghost var before := Annex(out);
      out := out + [layer];
      forall h, k | 0 <= h <= g && k >= 0 ensures Has(Annex(out), h, k) <==> k in layers[h] {
        if h < g { assert Has(Annex(out), h, k) <==> Has(before, h, k); }
      }
    }
    a := Annex(out);
  }

  // ------------------------------------------------------- recombining

  /** The quads of triple `k` in layers below `upto`. */
  function Row(layers: seq<seq<nat>>, t: Ids, k: nat, upto: nat): seq<Quad>
    requires upto <= |layers|
  {
    if upto == 0 then []
    else Row(layers, t, k, upto - 1) + (if k in layers[upto - 1] then [Quad(t, upto - 1)] else [])
  }

  function Joined(parts: Parts, m: nat): seq<Quad>
    requires m <= |parts.triples|
  {
    if m == 0 then [] else Joined(parts, m - 1) + Row(parts.layers, parts.triples[m - 1], m - 1, |parts.layers|)
  }

  lemma {:induction false} RowSame(a: seq<seq<nat>>, b: seq<seq<nat>>, t: Ids, k: nat, upto: nat)
    requires upto <= |a| == |b| && forall g :: 0 <= g < upto ==> (k in a[g] <==> k in b[g])
    ensures Row(a, t, k, upto) == Row(b, t, k, upto)
  {
    if upto > 0 { RowSame(a, b, t, k, upto - 1); }
  }

  lemma {:induction false} RowNone(a: seq<seq<nat>>, t: Ids, k: nat, from: nat, upto: nat)
    requires from <= upto <= |a| && forall g :: from <= g < upto ==> k !in a[g]
    ensures Row(a, t, k, upto) == Row(a, t, k, from)
  {
    if from < upto { RowNone(a, t, k, from, upto - 1); }
  }

  /** A graph above all others of the triple is emitted last. */
  lemma {:induction false} RowAdd(a: seq<seq<nat>>, b: seq<seq<nat>>, t: Ids, k: nat, g: nat)
    requires g < |a| == |b| && k in b[g]
    requires forall h :: 0 <= h < |a| && h != g ==> (k in a[h] <==> k in b[h])
    requires forall h :: g <= h < |a| ==> k !in a[h]
    ensures Row(b, t, k, |b|) == Row(a, t, k, |a|) + [Quad(t, g)]
  {
    RowNone(a, t, k, g, |a|);
    RowSame(a, b, t, k, g);
    RowNone(b, t, k, g + 1, |b|);
  }

  lemma {:induction false} JoinedSame(a: Parts, b: Parts, m: nat)
    requires m <= |a.triples| && m <= |b.triples| && a.triples[..m] == b.triples[..m] && |a.layers| == |b.layers|
    requires forall g, k :: 0 <= g < |a.layers| && 0 <= k < m ==> (k in a.layers[g] <==> k in b.layers[g])
    ensures Joined(a, m) == Joined(b, m)
  {
    if m > 0 {
      assert a.triples[m - 1] == a.triples[..m][m - 1] == b.triples[..m][m - 1];
      assert a.triples[..m - 1] == a.triples[..m][..m - 1] == b.triples[..m][..m - 1];
      JoinedSame(a, b, m - 1);
      RowSame(a.layers, b.layers, a.triples[m - 1], m - 1, |a.layers|);
    }
  }

  /** State after the quads `done`: recombining gives them back, and the indices
      are in bounds. */
  ghost predicate Sound(parts: Parts, done: seq<Quad>) {
    Joined(parts, |parts.triples|) == done && (done == [] <==> parts.triples == []) && Bounded(parts, done)
  }

  /** Every index names a triple; the last triple is that of the last quad and
      lies in no layer above its graph. */
  ghost predicate Bounded(parts: Parts, done: seq<Quad>) {
    var m := |parts.triples|;
    && (forall g, k :: 0 <= g < |parts.layers| && k in parts.layers[g] ==> k < m)
    && (m > 0 && done != [] ==>
          && parts.triples[m - 1] == done[|done| - 1].t
          && forall g :: 0 <= g < |parts.layers| && m - 1 in parts.layers[g] ==> g <= done[|done| - 1].g)
  }

  lemma {:induction false} PlaceBounded(parts: Parts, done: seq<Quad>, q: Quad)
    requires Sound(parts, done) && q.g < |parts.layers|
    requires done != [] ==> LessQuad(done[|done| - 1], q)
    ensures Bounded(Place(parts, q), done + [q])
  {
  }

  lemma {:induction false} PlaceAgain(parts: Parts, done: seq<Quad>, q: Quad)
    requires Sound(parts, done) && q.g < |parts.layers| && Repeats(parts.triples, q.t)
    requires LessQuad(done[|done| - 1], q)
    ensures Joined(Place(parts, q), |parts.triples|) == done + [q]
  {
    var next := Place(parts, q);
    var m := |parts.triples|;
    JoinedSame(parts, next, m - 1);
    RowAdd(parts.layers, next.layers, q.t, m - 1, q.g);
    assert Joined(next, m) == Joined(parts, m - 1) + (Row(parts.layers, q.t, m - 1, |parts.layers|) + [q]);
  }

  lemma {:induction false} PlaceNew(parts: Parts, done: seq<Quad>, q: Quad)
    requires Sound(parts, done) && q.g < |parts.layers| && !Repeats(parts.triples, q.t)
    ensures Joined(Place(parts, q), |parts.triples| + 1) == done + [q]
  {
    var next := Place(parts, q);
    var m := |parts.triples|;
    JoinedSame(parts, next, m);
    RowAdd(parts.layers, next.layers, q.t, m, q.g);
    RowNone(parts.layers, q.t, m, 0, |parts.layers|);
    assert Joined(next, m + 1) == Joined(parts, m) + [q];
  }

  lemma {:induction false} PlaceSound(parts: Parts, done: seq<Quad>, q: Quad)
    requires Sound(parts, done) && q.g < |parts.layers|
    requires done != [] ==> LessQuad(done[|done| - 1], q)
    ensures Sound(Place(parts, q), done + [q])
  {
    PlaceBounded(parts, done, q);
    if Repeats(parts.triples, q.t) {
      PlaceAgain(parts, done, q);
    } else {
      PlaceNew(parts, done, q);
    }
  }

  lemma {:induction false} SplitSound(qs: seq<Quad>, n: nat, count: nat)
    requires n <= |qs| && Ascending(qs) && forall q :: q in qs ==> q.g < count
    ensures Sound(Split(qs, n, count), qs[..n])
  {
    if n > 0 {
      SplitSound(qs, n - 1, count);
      TakeNext(qs, n - 1);
      PlaceSound(Split(qs, n - 1, count), qs[..n - 1], qs[n - 1]);
    }
  }

  /** Splitting and recombining gives the list back, in order. */
  lemma {:induction false} SplitJoin(qs: seq<Quad>, count: nat)
    requires Ascending(qs) && forall q :: q in qs ==> q.g < count
    ensures var parts := Split(qs, |qs|, count); Joined(parts, |parts.triples|) == qs
    ensures var parts := Split(qs, |qs|, count);
            forall g, k :: 0 <= g < count && k in parts.layers[g] ==> k < |parts.triples|
  {
    SplitSound(qs, |qs|, count);
    TakeAll(qs);
  }

  // ------------------------------------------------------- the reader's checks

  /** Some graph holds triple `k`. */
  ghost predicate Annotated(parts: Parts, k: nat) {
    exists g :: 0 <= g < |parts.layers| && k in parts.layers[g]
  }

  lemma {:induction false} PlaceAnnotates(parts: Parts, q: Quad, k: nat)
    requires q.g < |parts.layers| && (Annotated(parts, k) || k + 1 == |Place(parts, q).triples|)
    ensures Annotated(Place(parts, q), k)
  {
    var next := Place(parts, q);
    if k + 1 == |next.triples| {
      assert k in next.layers[q.g];
    } else {
      var g :| 0 <= g < |parts.layers| && k in parts.layers[g];
      assert k in next.layers[g];
    }
  }

  lemma {:induction false} SplitAnnotates(qs: seq<Quad>, n: nat, count: nat, k: nat)
    requires n <= |qs| && (forall q :: q in qs ==> q.g < count) && k < |Split(qs, n, count).triples|
    ensures Annotated(Split(qs, n, count), k)
  {
    if n > 0 {
      var before := Split(qs, n - 1, count);
      if k < |before.triples| { SplitAnnotates(qs, n - 1, count, k); }
      PlaceAnnotates(before, qs[n - 1], k);
    }
  }

  lemma {:induction false} RowHolds(layers: seq<seq<nat>>, t: Ids, k: nat, upto: nat, g: nat)
    requires g < upto <= |layers| && k in layers[g]
    ensures Row(layers, t, k, upto) != []
  {
    if g < upto - 1 { RowHolds(layers, t, k, upto - 1, g); }
  }

  /** No written triple is annotated with no graph. */
  lemma {:induction false} RowsNotEmpty(qs: seq<Quad>, count: nat, k: nat)
    requires forall q :: q in qs ==> q.g < count
    requires k < |Split(qs, |qs|, count).triples|
    ensures var parts := Split(qs, |qs|, count); Row(parts.layers, parts.triples[k], k, count) != []
  {
    var parts := Split(qs, |qs|, count);
    SplitAnnotates(qs, |qs|, count, k);
    var g :| 0 <= g < |parts.layers| && k in parts.layers[g];
    RowHolds(parts.layers, parts.triples[k], k, count, g);
  }

  // ------------------------------------------------------- dense subjects

  /** Subject ids are exactly `1..n`. */
  ghost predicate Covers(qs: seq<Quad>, n: nat) {
    && (forall q :: q in qs ==> 1 <= q.t.s <= n)
    && (forall x :: 1 <= x <= n ==> Occurs(qs, x))
  }

  ghost predicate Occurs(qs: seq<Quad>, x: nat) { exists i :: 0 <= i < |qs| && qs[i].t.s == x }

  lemma {:induction false} NoGap(qs: seq<Quad>, covered: nat, k: nat)
    requires Ascending(qs) && Covers(qs, covered) && k < |qs|
    ensures if k == 0 then qs[k].t.s == 1 else qs[k - 1].t.s <= qs[k].t.s <= qs[k - 1].t.s + 1
  {
    assert qs[k] in qs;
    var x := if k == 0 then 1 else qs[k - 1].t.s + 1;
    if k > 0 { assert LessQuad(qs[k - 1], qs[k]); }
    forall i | 0 <= i < |qs| ensures if i < k then qs[i].t.s < x else qs[k].t.s <= qs[i].t.s {
      if i < k - 1 { assert LessQuad(qs[i], qs[k - 1]); } else if i > k { assert LessQuad(qs[k], qs[i]); }
    }
    if x <= covered { assert Occurs(qs, x); }
  }

  lemma {:induction false} DenseGrows(ts: seq<Ids>, t: Ids)
    requires Dense(ts) && if ts == [] then t.s == 1 else ts[|ts| - 1].s <= t.s <= ts[|ts| - 1].s + 1
    ensures Dense(ts + [t])
  {
    var us := ts + [t];
    forall j | 0 < j < |us| ensures us[j].s == us[j - 1].s || us[j].s == us[j - 1].s + 1 {
      if j < |ts| { assert us[j] == ts[j] && us[j - 1] == ts[j - 1]; }
    }
    if ts != [] { assert us[0] == ts[0]; }
  }

  lemma {:induction false} DensePlace(parts: Parts, q: Quad)
    requires q.g < |parts.layers| && Dense(parts.triples)
    requires var ts := parts.triples;
             if ts == [] then q.t.s == 1 else ts[|ts| - 1].s <= q.t.s <= ts[|ts| - 1].s + 1
    ensures var ts := Place(parts, q).triples; Dense(ts) && ts != [] && ts[|ts| - 1] == q.t
  {
    DenseGrows(parts.triples, q.t);
  }

  lemma {:induction false} SplitDense(qs: seq<Quad>, n: nat, count: nat, covered: nat)
    requires n <= |qs| && Ascending(qs) && Covers(qs, covered) && forall q :: q in qs ==> q.g < count
    ensures var ts := Split(qs, n, count).triples;
            Dense(ts) && (n > 0 ==> ts != [] && ts[|ts| - 1] == qs[n - 1].t) && (n == 0 ==> ts == [])
  {
    if n > 0 {
      SplitDense(qs, n - 1, count, covered);
      NoGap(qs, covered, n - 1);
      DensePlace(Split(qs, n - 1, count), qs[n - 1]);
    }
  }

  /** Every triple in the default graph. */
  function Plain(triples: seq<Ids>): (r: seq<Quad>)
    ensures |r| == |triples| && forall i :: 0 <= i < |r| ==> r[i] == Quad(triples[i], 0)
  {
    seq(|triples|, i requires 0 <= i < |triples| => Quad(triples[i], 0))
  }

  /** With no named graph every triple stands for itself. */
  lemma {:induction false} OneLayer(parts: Parts, m: nat)
    requires m <= |parts.triples| && |parts.layers| == 1
    requires forall k :: 0 <= k < m ==> Row(parts.layers, parts.triples[k], k, 1) != []
    ensures Joined(parts, m) == Plain(parts.triples[..m])
  {
    if m > 0 {
      OneLayer(parts, m - 1);
      assert Row(parts.layers, parts.triples[m - 1], m - 1, 0) == [];
      assert Row(parts.layers, parts.triples[m - 1], m - 1, 1) == [Quad(parts.triples[m - 1], 0)];
      assert parts.triples[..m][..m - 1] == parts.triples[..m - 1];
      assert Plain(parts.triples[..m]) == Plain(parts.triples[..m - 1]) + [Quad(parts.triples[m - 1], 0)];
    }
  }
}

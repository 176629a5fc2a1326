/** The fast import's permutations (crates/graphy-hdt/src/import.rs): sections
    re-sorted, inline literals extracted, ids mapped. */
module Import {
  import opened Seqs
  import opened Terms
  import opened ByteOrder

  // ------------------------------------------------------- sorting a section

  ghost predicate InRange(order: seq<nat>, n: nat) { forall j :: 0 <= j < |order| ==> order[j] < n }

  ghost predicate InOrder(order: seq<nat>, terms: seq<Bytes>)
    requires InRange(order, |terms|)
  {
    forall j, k :: 0 <= j < k < |order| ==> !Less(terms[order[k]], terms[order[j]])
  }

  /** The first `n` positions of `terms`, each once, in ascending term order. */
  ghost predicate Orders(order: seq<nat>, terms: seq<Bytes>, n: nat)
    requires n <= |terms|
  {
    |order| == n && NoDup(order) && InRange(order, n) && (forall i :: 0 <= i < n ==> i in order)
        && InOrder(order, terms)
  }

  function InsertIndex(terms: seq<Bytes>, x: nat, order: seq<nat>): (r: seq<nat>)
    requires x < |terms| && forall j :: 0 <= j < |order| ==> order[j] < |terms|
    ensures |r| == |order| + 1 && forall j :: 0 <= j < |r| ==> r[j] < |terms|
  {
    if order == [] then [x]
    else if Less(terms[x], terms[order[0]]) then [x] + order
    else [order[0]] + InsertIndex(terms, x, order[1..])
  }

  lemma {:induction false} InsertIndexMembers(terms: seq<Bytes>, x: nat, order: seq<nat>, i: nat)
    requires x < |terms| && InRange(order, |terms|)
    ensures i in InsertIndex(terms, x, order) <==> i == x || i in order
  {
    if order != [] {
      assert i in order <==> i == order[0] || i in order[1..];
      InsertIndexMembers(terms, x, order[1..], i);
    }
  }

  lemma {:induction false} InsertIndexOrders(terms: seq<Bytes>, x: nat, order: seq<nat>)
    requires x < |terms| && x !in order && NoDup(order) && InRange(order, |terms|) && InOrder(order, terms)
    ensures var r := InsertIndex(terms, x, order); NoDup(r) && InRange(r, |terms|) && InOrder(r, terms)
  {
    if order != [] {
      var rest := order[1..];
      assert order == [order[0]] + rest;
      LessTotal(terms[x], terms[order[0]]);
      if Less(terms[x], terms[order[0]]) {
        forall k | 0 <= k < |order| ensures !Less(terms[order[k]], terms[x]) {
          if Less(terms[order[k]], terms[x]) { LessTransitive(terms[order[k]], terms[x], terms[order[0]]); }
        }
      } else {
        InsertIndexOrders(terms, x, rest);
        var r := InsertIndex(terms, x, rest);
        forall k | 0 <= k < |r| ensures r[k] != order[0] && !Less(terms[r[k]], terms[order[0]]) {
          InsertIndexMembers(terms, x, rest, r[k]);
          if r[k] != x {
            var j :| 0 <= j < |rest| && rest[j] == r[k];
            assert order[j + 1] == r[k];
          }
        }
      }
    }
  }

  /** `sort_unstable_by` on positions. */
  method SortIndices(terms: seq<Bytes>) returns (order: seq<nat>)
    ensures Orders(order, terms, |terms|)
  {
    order := [];
    for n := 0 to |terms|
      invariant Orders(order, terms, n)
    {
      InsertIndexOrders(terms, n, order);
      forall i | 0 <= i <= n ensures i in InsertIndex(terms, n, order) { InsertIndexMembers(terms, n, order, i); }
      forall j | 0 <= j <= n ensures InsertIndex(terms, n, order)[j] <= n {
        InsertIndexMembers(terms, n, order, InsertIndex(terms, n, order)[j]);
      }
      order := InsertIndex(terms, n, order);
    }
  }

  /** The remap is a permutation that says where each entry went. */
  ghost predicate Remaps(terms: seq<Bytes>, sorted: seq<Bytes>, remap: seq<nat>) {
    && |sorted| == |terms| == |remap| && NoDup(remap)
    && forall i :: 0 <= i < |terms| ==> remap[i] < |sorted| && sorted[remap[i]] == terms[i]
  }

  ghost predicate Ascends(s: seq<Bytes>) { forall j, k :: 0 <= j < k < |s| ==> !Less(s[k], s[j]) }

  /** `sort_section`: terms move out of their slots in sorted order. */
  method SortSection(terms: seq<Bytes>) returns (sorted: seq<Bytes>, remap: seq<nat>)
    ensures Remaps(terms, sorted, remap) && Ascends(sorted)
  {
    var order := SortIndices(terms);
    var n := |terms|;
    var places := new nat[n](i => 0);
    for pos := 0 to n
      invariant forall j :: 0 <= j < pos ==> places[order[j]] == j
    {
      places[order[pos]] := pos;
    }
    remap := places[..];
    var slots := new Option<Bytes>[n](i requires 0 <= i < n => Some(terms[i]));
    sorted := [];
    for pos := 0 to n
      invariant |sorted| == pos
      invariant forall j :: 0 <= j < pos ==> sorted[j] == terms[order[j]]
      invariant forall j :: pos <= j < n ==> slots[order[j]] == Some(terms[order[j]])
    {
      var slot := slots[order[pos]];
      slots[order[pos]] := None;
      sorted := sorted + [slot.value];
    }
    forall i | 0 <= i < n ensures remap[i] < n && order[remap[i]] == i {
      assert i in order;
      var j :| 0 <= j < n && order[j] == i;
      assert remap[order[j]] == j;
    }
  }

  // ------------------------------------------------------- the import

  /** Column values below this are dictionary positions; inline ids carry a tag
      in the bits above. */
  const DICT_LIMIT: nat := 0x1000_0000_0000_0000

  datatype Sections = Sections(shared: seq<Bytes>, subjects: seq<Bytes>, predicates: seq<Bytes>, objects: seq<Bytes>,
                               graphs: seq<Bytes>)

  /** An HDT quad (ids from 1, graph column 0 for the default graph) or an imported one. */
  datatype Cols = Cols(s: nat, p: nat, o: nat, g: nat)

  datatype ObjMap = Col(v: nat) | Inline(raw: nat)

  /** Object entries with an inline id leave the dictionary. */
  function Kept(inline: Bytes -> Option<nat>, objects: seq<Bytes>, n: nat): seq<Bytes>
    requires n <= |objects|
  {
    if n == 0 then []
    else Kept(inline, objects, n - 1) + if inline(objects[n - 1]).Some? then [] else [objects[n - 1]]
  }

  /** Every object without an inline id stays, as often as it was, and no other. */
  lemma {:induction false} KeptExact(inline: Bytes -> Option<nat>, objects: seq<Bytes>, n: nat, x: Bytes)
    requires n <= |objects|
    ensures multiset(Kept(inline, objects, n))[x] == if inline(x).Some? then 0 else multiset(objects[..n])[x]
  {
    if n > 0 {
      var last, before := objects[n - 1], Kept(inline, objects, n - 1);
      KeptExact(inline, objects, n - 1, x);
      TakeNext(objects, n - 1);
      assert multiset(objects[..n]) == multiset(objects[..n - 1]) + multiset{last};
      if inline(last).Some? {
        assert Kept(inline, objects, n) == before + [] == before;
      } else {
        assert multiset(Kept(inline, objects, n)) == multiset(before) + multiset{last};
      }
    }
  }

  /** Each object either inlines or has a column behind the shared section. */
  ghost predicate MapsObjects(inline: Bytes -> Option<nat>, objects: seq<Bytes>, sorted: seq<Bytes>, n_sh: nat,
                              objMap: seq<ObjMap>) {
    && |objMap| == |objects|
    && forall i :: 0 <= i < |objects| ==>
         match inline(objects[i])
         case Some(raw) => objMap[i] == Inline(raw)
         case None =>
           && objMap[i].Col? && n_sh <= objMap[i].v < n_sh + |sorted|
           && sorted[objMap[i].v - n_sh] == objects[i]
  }

  /** The kept objects stand where `positions` says. */
  ghost predicate Extracted(inline: Bytes -> Option<nat>, objects: seq<Bytes>, n: nat, dict: seq<Bytes>,
                            positions: seq<nat>, objMap: seq<ObjMap>)
    requires n <= |objects|
  {
    && |objMap| == n && |positions| == |dict| <= n && dict == Kept(inline, objects, n)
    && (forall d :: 0 <= d < |dict| ==>
        positions[d] < n && inline(objects[positions[d]]).None? && dict[d] == objects[positions[d]])
    && NoDup(positions)
    && (forall j :: 0 <= j < n ==>
        if inline(objects[j]).Some? then objMap[j] == Inline(inline(objects[j]).value) else j in positions)
  }

  method Extract(inline: Bytes -> Option<nat>, objects: seq<Bytes>)
    returns (dict: seq<Bytes>, positions: seq<nat>, objMap: seq<ObjMap>)
    ensures Extracted(inline, objects, |objects|, dict, positions, objMap)
  {
    dict, positions, objMap := [], [], [];
    for i := 0 to |objects|
      invariant Extracted(inline, objects, i, dict, positions, objMap)
    {
      match inline(objects[i])
      case Some(raw) =>
        objMap := objMap + [Inline(raw)];
      case None =>
        positions := positions + [i];
        assert positions[|dict|] == i;
        objMap := objMap + [Col(0)];
        dict := dict + [objects[i]];
    }
  }

  method MapObjects(inline: Bytes -> Option<nat>, objects: seq<Bytes>, n_sh: nat)
    returns (sorted: seq<Bytes>, objMap: seq<ObjMap>)
    ensures MapsObjects(inline, objects, sorted, n_sh, objMap) && Ascends(sorted)
    ensures multiset(sorted) == multiset(Kept(inline, objects, |objects|))
  {
    var dict, positions;
    dict, positions, objMap := Extract(inline, objects);
    var remap;
    sorted, remap := SortSection(dict);
    RemapsKeepsAll(dict, sorted, remap);
    for dense := 0 to |positions|
      invariant |objMap| == |objects|
      invariant forall j :: 0 <= j < |objects| && inline(objects[j]).Some? ==>
                objMap[j] == Inline(inline(objects[j]).value)
      invariant forall d :: 0 <= d < dense ==> objMap[positions[d]] == Col(n_sh + remap[d])
    {
      objMap := objMap[positions[dense] := Col(n_sh + remap[dense])];
    }
    forall i | 0 <= i < |objects| && inline(objects[i]).None?
      ensures objMap[i].Col? && n_sh <= objMap[i].v < n_sh + |sorted| && sorted[objMap[i].v - n_sh] == objects[i]
    {
      var d :| 0 <= d < |positions| && positions[d] == i;
      assert sorted[remap[d]] == dict[d];
    }
  }

  /** A permutation keeps every entry as often as it was. */
  lemma {:induction false} RemapsKeepsAll(terms: seq<Bytes>, sorted: seq<Bytes>, remap: seq<nat>)
    requires Remaps(terms, sorted, remap)
    ensures multiset(sorted) == multiset(terms)
    decreases |terms|
  {
    if terms != [] {
      var n := |terms| - 1;
      var at := remap[n];
      var fewer := sorted[..at] + sorted[at + 1..];
      var moved := seq(n, i requires 0 <= i < n => if remap[i] < at then remap[i] else remap[i] - 1);
      forall i | 0 <= i < n ensures moved[i] < n && fewer[moved[i]] == terms[..n][i] { assert remap[i] != remap[n]; }
      forall i, j | 0 <= i < j < n
        ensures moved[i] != moved[j]
      {
        assert remap[i] != remap[j] && remap[i] != remap[n] && remap[j] != remap[n];
      }
      RemapsKeepsAll(terms[..n], fewer, moved);
      assert sorted == sorted[..at] + [sorted[at]] + sorted[at + 1..];
      assert terms == terms[..n] + [terms[n]];
    }
  }

  // ------------------------------------------------------- mapping quads

  datatype Remap = Remap(shared: seq<nat>, subjects: seq<nat>, predicates: seq<nat>, objects: seq<ObjMap>,
                         graphs: seq<nat>)

  /** `map_s`, for an id the dictionary has. */
  function MapSubject(m: Remap, id: nat): Option<nat> {
    if 1 <= id <= |m.shared| then Some(m.shared[id - 1])
    else if |m.shared| < id <= |m.shared| + |m.subjects| then Some(|m.shared| + m.subjects[id - |m.shared| - 1])
    else None
  }

  /** `map_o`: a shared or object column, or an inline id as it is. */
  function MapObject(m: Remap, id: nat): Option<nat> {
    if 1 <= id <= |m.shared| then Some(m.shared[id - 1])
    else if |m.shared| < id <= |m.shared| + |m.objects| then
      Some(match m.objects[id - |m.shared| - 1] case Col(v) => v case Inline(raw) => raw)
    else None
  }

  function MapQuad(m: Remap, q: Cols): Option<Cols> {
    var s, o := MapSubject(m, q.s), MapObject(m, q.o);
    if s.Some? && o.Some? && 1 <= q.p <= |m.predicates| && q.g < |m.graphs| then
      Some(Cols(s.value, m.predicates[q.p - 1], o.value, m.graphs[q.g]))
    else None
  }

  /** Graph columns: 0 stays 0, column `i + 1` follows entry `i`; the empty entry
      has no column of its own. */
  ghost predicate MapsGraphs(graphs: seq<Bytes>, sorted: seq<Bytes>, remap: seq<nat>) {
    && |remap| == |graphs| + 1 && remap[0] == 0
    && forall i :: 0 <= i < |graphs| && graphs[i] != []
        ==> 1 <= remap[i + 1] <= |sorted| && sorted[remap[i + 1] - 1] == graphs[i]
  }

  ghost predicate Consistent(inline: Bytes -> Option<nat>, hdt: Sections, seg: Sections, m: Remap) {
    && Remaps(hdt.shared, seg.shared, m.shared) && Remaps(hdt.subjects, seg.subjects, m.subjects)
    && Remaps(hdt.predicates, seg.predicates, m.predicates)
    && MapsObjects(inline, hdt.objects, seg.objects, |seg.shared|, m.objects)
    && MapsGraphs(hdt.graphs, seg.graphs, m.graphs)
  }

  /** The named graphs, sorted, and the column of each entry. */
  method MapGraphs(graphs: seq<Bytes>) returns (sorted: seq<Bytes>, remap: seq<nat>)
    ensures MapsGraphs(graphs, sorted, remap) && Ascends(sorted)
  {
    var named: seq<Bytes> := [];
    var from: seq<nat> := [];
    for i := 0 to |graphs|
      invariant |named| == |from|
      invariant forall d :: 0 <= d < |named| ==> from[d] < i && named[d] == graphs[from[d]] && named[d] != []
      invariant NoDup(from)
      invariant forall j :: 0 <= j < i && graphs[j] != [] ==> j in from
    {
      if graphs[i] != [] {
        named := named + [graphs[i]];
        from := from + [i];
        assert from[|named| - 1] == i;
      }
    }
    var places;
    sorted, places := SortSection(named);
    remap := seq(|graphs| + 1, i => 0);
    for d := 0 to |from|
      invariant |remap| == |graphs| + 1 && remap[0] == 0
      invariant forall e :: 0 <= e < d ==> remap[from[e] + 1] == places[e] + 1
    {
      remap := remap[from[d] + 1 := places[d] + 1];
    }
    forall i | 0 <= i < |graphs| && graphs[i] != []
      ensures 1 <= remap[i + 1] <= |sorted| && sorted[remap[i + 1] - 1] == graphs[i]
    {
      var d :| 0 <= d < |from| && from[d] == i;
      assert sorted[places[d]] == named[d];
    }
  }

  /** `import_segment`: the segment's sections and the mapped quads. */
  method ImportSegment(inline: Bytes -> Option<nat>, hdt: Sections, quads: seq<Cols>)
    returns (seg: Sections, out: Option<seq<Cols>>, ghost m: Remap)
    ensures Consistent(inline, hdt, seg, m)
    ensures Ascends(seg.shared) && Ascends(seg.subjects) && Ascends(seg.predicates) && Ascends(seg.objects)
            && Ascends(seg.graphs)
    ensures multiset(seg.objects) == multiset(Kept(inline, hdt.objects, |hdt.objects|))
    ensures (forall i :: 0 <= i < |quads| ==> MapQuad(m, quads[i]).Some?) <==> out.Some?
    ensures out.Some? ==> |out.value| == |quads| && forall i :: 0 <= i < |quads| ==>
            MapQuad(m, quads[i]) == Some(out.value[i])
  {
    var graphs, gRemap := MapGraphs(hdt.graphs);
    var shared, sharedRemap := SortSection(hdt.shared);
    var subjects, subjectRemap := SortSection(hdt.subjects);
    var predicates, predicateRemap := SortSection(hdt.predicates);
    var objects, objMap := MapObjects(inline, hdt.objects, |hdt.shared|);
    seg := Sections(shared, subjects, predicates, objects, graphs);
    var maps := Remap(sharedRemap, subjectRemap, predicateRemap, objMap, gRemap);
    m := maps;
    var mapped: seq<Cols> := [];
    for i := 0 to |quads|
      invariant |mapped| == i && forall j :: 0 <= j < i ==> MapQuad(m, quads[j]) == Some(mapped[j])
    {
      var q := MapQuad(maps, quads[i]);
      if q.None? {
        return seg, None, m;
      }
      mapped := mapped + [q.value];
    }
    return seg, Some(mapped), m;
  }

  // ------------------------------------------------------- conservation

  /** The terms of an HDT quad; `None` for the default graph. */
  datatype Quad = Quad(s: Bytes, p: Bytes, o: Bytes, g: Option<Bytes>)

  predicate Known(d: Sections, q: Cols) {
    && 1 <= q.s <= |d.shared| + |d.subjects| && 1 <= q.p <= |d.predicates| && 1 <= q.o <= |d.shared| + |d.objects|
    && q.g <= |d.graphs| && (q.g > 0 ==> d.graphs[q.g - 1] != [])
  }

  function Entry(shared: seq<Bytes>, own: seq<Bytes>, k: nat): Bytes
    requires k < |shared| + |own|
  {
    if k < |shared| then shared[k] else own[k - |shared|]
  }

  function HdtQuad(d: Sections, q: Cols): Quad
    requires Known(d, q)
  {
    Quad(Entry(d.shared, d.subjects, q.s - 1), d.predicates[q.p - 1], Entry(d.shared, d.objects, q.o - 1),
         if q.g == 0 then None else Some(d.graphs[q.g - 1]))
  }

  /** A segment's object column denotes `o`: by position below the tag bits, by
      its inline value above. */
  predicate DenotesObject(inline: Bytes -> Option<nat>, seg: Sections, v: nat, o: Bytes) {
    if v < DICT_LIMIT then v < |seg.shared| + |seg.objects| && Entry(seg.shared, seg.objects, v) == o
    else inline(o) == Some(v)
  }

  predicate Denotes(inline: Bytes -> Option<nat>, seg: Sections, c: Cols, q: Quad) {
    && c.s < |seg.shared| + |seg.subjects| && Entry(seg.shared, seg.subjects, c.s) == q.s
    && c.p < |seg.predicates| && seg.predicates[c.p] == q.p
    && DenotesObject(inline, seg, c.o, q.o)
    && (if q.g.None? then c.g == 0 else 1 <= c.g <= |seg.graphs| && seg.graphs[c.g - 1] == q.g.value)
  }

  /** Inline ids carry a tag above the dictionary positions. */
  ghost predicate Tagged(inline: Bytes -> Option<nat>, objects: seq<Bytes>) {
    forall o :: o in objects ==> match inline(o) case Some(raw) => raw >= DICT_LIMIT case None => true
  }

  lemma {:induction false} RemapAt(terms: seq<Bytes>, sorted: seq<Bytes>, remap: seq<nat>, i: nat)
    requires Remaps(terms, sorted, remap) && i < |terms|
    ensures remap[i] < |sorted| && sorted[remap[i]] == terms[i]
  {
  }

  /** Every quad of the file is mapped, to columns that denote its terms. */
  lemma {:induction false} QuadConserved(inline: Bytes -> Option<nat>, hdt: Sections, seg: Sections, m: Remap, q: Cols)
    requires Consistent(inline, hdt, seg, m) && Known(hdt, q) && Tagged(inline, hdt.objects)
    requires |seg.shared| + |seg.objects| <= DICT_LIMIT
    ensures MapQuad(m, q).Some? && Denotes(inline, seg, MapQuad(m, q).value, HdtQuad(hdt, q))
  {
    if q.s <= |m.shared| {
      RemapAt(hdt.shared, seg.shared, m.shared, q.s - 1);
    } else {
      RemapAt(hdt.subjects, seg.subjects, m.subjects, q.s - |m.shared| - 1);
    }
    RemapAt(hdt.predicates, seg.predicates, m.predicates, q.p - 1);
    if q.o <= |m.shared| {
      RemapAt(hdt.shared, seg.shared, m.shared, q.o - 1);
    } else {
      var i := q.o - |m.shared| - 1;
      assert hdt.objects[i] in hdt.objects;
      match inline(hdt.objects[i])
      case Some(raw) => assert m.objects[i] == Inline(raw);
      case None => assert m.objects[i].Col?;
    }
  }

  /** Columns denote one quad only, so distinct quads stay distinct. */
  lemma {:induction false} DenotesUnique(inline: Bytes -> Option<nat>, seg: Sections, c: Cols, x: Quad, y: Quad)
    requires Denotes(inline, seg, c, x) && Denotes(inline, seg, c, y)
    requires forall a, b :: inline(a).Some? && inline(a) == inline(b) ==> a == b
    requires x.g != Some([]) && y.g != Some([])
    ensures x == y
  {
    if c.o >= DICT_LIMIT { assert inline(x.o) == inline(y.o); }
  }
}

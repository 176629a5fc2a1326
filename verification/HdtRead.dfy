/** Reading a quad file back (crates/graphy-hdt/src/reader.rs, `each_quad_ids` and
    `each_quad`), and the end-to-end theorem. */
module HdtRead {
  import opened Seqs
  import opened Terms
  import opened Section
  import opened BitmapTriples
  import opened ByteOrder
  import opened QuadIds
  import opened HdtFile

  /** The file of a writer: what it holds, and that its strings fit the sections. */
  ghost predicate Exported(f: HdtFile, d: Dict, qs: seq<Quad>, quads: bool, parts: Parts) {
    && Describes(f, d, qs, quads, parts) && Ascending(qs) && Dense(parts.triples) && Sorted(d.graphs)
    && Storable(d.shared) && Storable(d.subjects) && Storable(d.predicates) && Storable(d.objects) && Storable(d.graphs)
  }

  // ------------------------------------------------------- id quads

  /** The last empty entry: the default graph's layer. */
  function DefaultOf(entries: seq<Bytes>, n: nat): Option<nat>
    requires n <= |entries|
  {
    if n == 0 then None else if entries[n - 1] == [] then Some(n - 1) else DefaultOf(entries, n - 1)
  }

  method DefaultLayer(graphs: PfcSection, ghost entries: seq<Bytes>) returns (ok: bool, r: Option<nat>)
    ensures Written(graphs, entries) && Storable(entries) ==> ok && r == DefaultOf(entries, |entries|)
  {
    var items := Collect(graphs, entries);
    if items.None? {
      return false, None;
    }
    r := None;
    for i := 0 to |items.value|
      invariant r == DefaultOf(items.value, i)
    {
      if items.value[i] == [] {
        r := Some(i);
      }
    }
    ok := true;
  }

  /** Sorted graphs name the default graph first or not at all. */
  lemma {:induction false} DefaultIsFirst(entries: seq<Bytes>, n: nat)
    requires Sorted(entries) && n <= |entries|
    ensures DefaultOf(entries, n) == if n > 0 && entries[0] == [] then Some(0) else None
  {
    if n > 0 {
      EmptyFirst(entries);
      DefaultIsFirst(entries, n - 1);
    }
  }

  /** The graph column of a layer: 0 for the default graph. */
  function Column(default: Option<nat>, g: nat): nat { if default == Some(g) then 0 else g + 1 }

  function Columns(default: Option<nat>, qs: seq<Quad>): (r: seq<Quad>)
    ensures |r| == |qs|
  {
    if qs == [] then [] else Columns(default, qs[..|qs| - 1]) + [Quad(qs[|qs| - 1].t, Column(default, qs[|qs| - 1].g))]
  }

  lemma {:induction false} ColumnsConcat(default: Option<nat>, a: seq<Quad>, b: seq<Quad>)
    ensures Columns(default, a + b) == Columns(default, a) + Columns(default, b)
  {
    if b == [] {
      assert a + b == a;
    } else {
      var init := b[..|b| - 1];
      ColumnsConcat(default, a, init);
      assert (a + b)[..|a + b| - 1] == a + init;
    }
  }

  lemma {:induction false} OneColumn(default: Option<nat>, q: Quad)
    ensures Columns(default, [q]) == [Quad(q.t, Column(default, q.g))]
  {
    assert [q][..0] == [];
  }

  lemma {:induction false} ColumnAt(default: Option<nat>, qs: seq<Quad>, i: nat)
    requires i < |qs|
    ensures Columns(default, qs)[i] == Quad(qs[i].t, Column(default, qs[i].g))
  {
    if i < |qs| - 1 { ColumnAt(default, qs[..|qs| - 1], i); }
  }

  /** The quads of one triple, one per layer that holds it. */
  method LayersOf(a: Annex, default: Option<nat>, t: Ids, k: nat, ghost layers: seq<seq<nat>>) returns (out: seq<Quad>)
    requires QuadIds.Stores(a, layers)
    ensures out == Columns(default, Row(layers, t, k, |layers|))
  {
    out := [];
    for g := 0 to |a.layers|
      invariant out == Columns(default, Row(layers, t, k, g))
    {
      ColumnsConcat(default, Row(layers, t, k, g), [Quad(t, g)]);
      assert Row(layers, t, k, g) + [] == Row(layers, t, k, g);
      if Has(a, g, k) {
        var column := if default == Some(g) then 0 else g + 1;
        OneColumn(default, Quad(t, g));
        out := out + [Quad(t, column)];
      }
    }
  }

  /** What the reader reports for the written quads. */
  function Reported(d: Dict, qs: seq<Quad>, quads: bool): seq<Quad> {
    if quads then Columns(DefaultOf(d.graphs, |d.graphs|), qs) else qs
  }

  /** `each_quad_ids`; `None` for corrupt data and for a triple in no graph. A
      written file yields its quads in order, so neither happens. */
  method EachQuadIds(f: HdtFile, ghost d: Dict, ghost qs: seq<Quad>, ghost quads: bool, ghost parts: Parts,
                     ghost a: Arrays)
    returns (r: Option<seq<Quad>>)
    requires Holding(f, a) && (f.annex.Some? ==> QuadIds.Stores(f.annex.value, parts.layers))
    ensures Exported(f, d, qs, quads, parts) && a == Filled(parts.triples, |parts.triples|)
            ==> r == Some(Reported(d, qs, quads))
  {
    ghost var good := Exported(f, d, qs, quads, parts) && a == Filled(parts.triples, |parts.triples|);
    if good { GoodParts(f, d, qs, quads, parts); }
    var listed := EachTripleIds(f.sy, f.ey, f.sz, f.ez, a);
    if good { RoundTripIff(parts.triples); }
    if listed.None? {
      return None;
    }
    var triples := listed.value;
    if f.annex.None? || f.graphs.None? {
      return Some(Plain(triples));
    }
    var ok, default := DefaultLayer(f.graphs.value, d.graphs);
    if !ok {
      return None;
    }
    var out: seq<Quad> := [];
    for k := 0 to |triples|
      invariant good ==> triples == parts.triples && out == Columns(default, Joined(parts, k))
    {
      var row := LayersOf(f.annex.value, default, triples[k], k, parts.layers);
      if row == [] {
        return None;
      }
      if good { ColumnsConcat(default, Joined(parts, k), Row(parts.layers, triples[k], k, |parts.layers|)); }
      out := out + row;
    }
    return Some(out);
  }

  lemma {:induction false} GoodParts(f: HdtFile, d: Dict, qs: seq<Quad>, quads: bool, parts: Parts)
    requires Exported(f, d, qs, quads, parts)
    ensures Joined(parts, |parts.triples|) == qs
    ensures forall k :: 0 <= k < |parts.triples| ==> Row(parts.layers, parts.triples[k], k, |parts.layers|) != []
    ensures !quads ==> qs == Plain(parts.triples)
  {
    var count := LayerCount(d, quads);
    SplitJoin(qs, count);
    forall k | 0 <= k < |parts.triples|
      ensures Row(parts.layers, parts.triples[k], k, count) != []
    {
      RowsNotEmpty(qs, count, k);
    }
    if !quads {
      OneLayer(parts, |parts.triples|);
      TakeAll(parts.triples);
    }
  }

  // ------------------------------------------------------- terms

  function DecodeFirst(decode: Decoder, entries: seq<Bytes>, n: nat): (r: Option<seq<Term>>)
    requires n <= |entries|
    ensures r.Some? ==> |r.value| == n
  {
    if n == 0 then Some([])
    else
      match DecodeFirst(decode, entries, n - 1)
      case None => None
      case Some(init) =>
        match decode(entries[n - 1])
        case None => None
        case Some(t) => Some(init + [t])
  }

  lemma {:induction false} DecodeFails(decode: Decoder, entries: seq<Bytes>, n: nat, m: nat)
    requires n <= m <= |entries| && DecodeFirst(decode, entries, n).None?
    ensures DecodeFirst(decode, entries, m).None?
    decreases m
  {
    if n < m { DecodeFails(decode, entries, n, m - 1); }
  }

  lemma {:induction false} DecodedAt(decode: Decoder, entries: seq<Bytes>, n: nat, i: nat)
    requires i < n <= |entries| && DecodeFirst(decode, entries, n).Some?
    ensures decode(entries[i]) == Some(DecodeFirst(decode, entries, n).value[i])
  {
    if i < n - 1 { DecodedAt(decode, entries, n - 1, i); }
  }

  lemma {:induction false} AllDecode(decode: Decoder, entries: seq<Bytes>, n: nat)
    requires n <= |entries| && forall i :: 0 <= i < n ==> decode(entries[i]).Some?
    ensures DecodeFirst(decode, entries, n).Some?
  {
    if n > 0 { AllDecode(decode, entries, n - 1); }
  }

  /** `decode_all`: one section as terms, in order. */
  method DecodeSection(decode: Decoder, sec: PfcSection, ghost entries: seq<Bytes>) returns (r: Option<seq<Term>>)
    ensures Written(sec, entries) && Storable(entries) ==> r == DecodeFirst(decode, entries, |entries|)
  {
    var items := Collect(sec, entries);
    if items.None? {
      return None;
    }
    var list := items.value;
    var out: seq<Term> := [];
    for i := 0 to |list|
      invariant DecodeFirst(decode, list, i) == Some(out)
    {
      var t := decode(list[i]);
      if t.None? {
        DecodeFails(decode, list, i + 1, |list|);
        return None;
      }
      out := out + [t.value];
    }
    return Some(out);
  }

  function GraphsFirst(decode: Decoder, entries: seq<Bytes>, n: nat): (r: Option<seq<Option<Term>>>)
    requires n <= |entries|
    ensures r.Some? ==> |r.value| == n
  {
    if n == 0 then Some([])
    else
      match GraphsFirst(decode, entries, n - 1)
      case None => None
      case Some(init) =>
        match GraphTerm(decode, entries[n - 1])
        case None => None
        case Some(g) => Some(init + [g])
  }

  lemma {:induction false} GraphsFail(decode: Decoder, entries: seq<Bytes>, n: nat, m: nat)
    requires n <= m <= |entries| && GraphsFirst(decode, entries, n).None?
    ensures GraphsFirst(decode, entries, m).None?
    decreases m
  {
    if n < m { GraphsFail(decode, entries, n, m - 1); }
  }

  lemma {:induction false} GraphAt(decode: Decoder, entries: seq<Bytes>, n: nat, i: nat)
    requires i < n <= |entries| && GraphsFirst(decode, entries, n).Some?
    ensures GraphTerm(decode, entries[i]) == Some(GraphsFirst(decode, entries, n).value[i])
  {
    if i < n - 1 { GraphAt(decode, entries, n - 1, i); }
  }

  lemma {:induction false} AllGraphs(decode: Decoder, entries: seq<Bytes>, n: nat)
    requires n <= |entries| && forall i :: 0 <= i < n ==> GraphTerm(decode, entries[i]).Some?
    ensures GraphsFirst(decode, entries, n).Some?
  {
    if n > 0 { AllGraphs(decode, entries, n - 1); }
  }

  /** `graphs_concise`: the empty entry stays without a term. */
  method DecodeGraphs(decode: Decoder, sec: PfcSection, ghost entries: seq<Bytes>)
    returns (r: Option<seq<Option<Term>>>)
    ensures Written(sec, entries) && Storable(entries) ==> r == GraphsFirst(decode, entries, |entries|)
  {
    var items := Collect(sec, entries);
    if items.None? {
      return None;
    }
    var list := items.value;
    var out: seq<Option<Term>> := [];
    for i := 0 to |list|
      invariant GraphsFirst(decode, list, i) == Some(out)
    {
      var g := GraphTerm(decode, list[i]);
      if g.None? {
        GraphsFail(decode, list, i + 1, |list|);
        return None;
      }
      out := out + [g.value];
    }
    return Some(out);
  }

  // ------------------------------------------------------- quads of terms

  datatype Decoded = Decoded(shared: seq<Term>, predicates: seq<Term>, objects: seq<Term>, graphs: seq<Option<Term>>)

  /** The sections decoded ahead: their entries are the terms of the strings. */
  ghost predicate DecodedFrom(decode: Decoder, s: Decoded, d: Dict, quads: bool) {
    && DecodeFirst(decode, d.shared, |d.shared|) == Some(s.shared)
    && DecodeFirst(decode, d.predicates, |d.predicates|) == Some(s.predicates)
    && DecodeFirst(decode, d.objects, |d.objects|) == Some(s.objects)
    && (quads ==> GraphsFirst(decode, d.graphs, |d.graphs|) == Some(s.graphs))
  }

  /** Every string of the dictionary decodes. */
  ghost predicate DictDecodes(decode: Decoder, d: Dict) {
    && (forall i :: 0 <= i < |d.shared| ==> decode(d.shared[i]).Some?)
    && (forall i :: 0 <= i < |d.predicates| ==> decode(d.predicates[i]).Some?)
    && (forall i :: 0 <= i < |d.objects| ==> decode(d.objects[i]).Some?)
    && (forall i :: 0 <= i < |d.graphs| ==> GraphTerm(decode, d.graphs[i]).Some?)
  }

  /** The subject of an id: shared terms are decoded ahead, others on access. */
  method SubjectTerm(decode: Decoder, shared: seq<Term>, own: PfcSection, id: nat, ghost d: Dict)
    returns (r: Option<Term>)
    ensures 1 <= id <= |d.shared| + |d.subjects| && DecodeFirst(decode, d.shared, |d.shared|) == Some(shared)
              && Written(own, d.subjects) && Storable(d.subjects)
            ==> r == decode(SubjectAt(d, id))
  {
    if id == 0 {
      return None;
    }
    if id <= |shared| {
      if DecodeFirst(decode, d.shared, |d.shared|) == Some(shared) { DecodedAt(decode, d.shared, |d.shared|, id - 1); }
      return Some(shared[id - 1]);
    }
    var raw := Get(own, id - |shared| - 1);
    if Written(own, d.subjects) && Storable(d.subjects) { GetAgrees(own, d.subjects, id - |shared| - 1); }
    match raw
    case None => return None;
    case Some(bytes) => return decode(bytes);
  }

  /** Predicate, object and graph of an id quad. */
  function Rest(s: Decoded, q: Quad): Tail {
    if q.t.p == 0 || q.t.p > |s.predicates| || q.t.o == 0 || q.t.o > |s.shared| + |s.objects| then NoTail
    else if q.g > |s.graphs| || (q.g > 0 && s.graphs[q.g - 1].None?) then NoTail
    else Tail(s.predicates[q.t.p - 1],
              if q.t.o <= |s.shared| then s.shared[q.t.o - 1] else s.objects[q.t.o - |s.shared| - 1],
              if q.g == 0 then None else s.graphs[q.g - 1])
  }

  datatype Tail = NoTail | Tail(p: Term, o: Term, g: Option<Term>)

  lemma {:induction false} ReportedAt(d: Dict, qs: seq<Quad>, quads: bool, i: nat)
    requires Sorted(d.graphs) && i < |qs| && InDict(d, qs[i])
    requires if quads then qs[i].g < |d.graphs| else d.graphs == []
    ensures |Reported(d, qs, quads)| == |qs|
    ensures var q := Reported(d, qs, quads)[i];
            && q.t == qs[i].t
            && (if RawAt(d, qs[i]).g == [] then q.g == 0 else quads && q.g == qs[i].g + 1 && d.graphs[qs[i].g] != [])
  {
    if quads {
      ColumnAt(DefaultOf(d.graphs, |d.graphs|), qs, i);
      DefaultIsFirst(d.graphs, |d.graphs|);
      EmptyFirst(d.graphs);
    }
  }

  lemma {:induction false} RestAt(decode: Decoder, s: Decoded, d: Dict, qs: seq<Quad>, quads: bool, i: nat)
    requires DecodedFrom(decode, s, d, quads) && Sorted(d.graphs) && i < |qs| && InDict(d, qs[i])
    requires if quads then qs[i].g < |d.graphs| else d.graphs == []
    ensures |Reported(d, qs, quads)| == |qs|
    ensures var rest, raw := Rest(s, Reported(d, qs, quads)[i]), RawAt(d, qs[i]);
            && rest.Tail?
            && decode(raw.p) == Some(rest.p) && decode(raw.o) == Some(rest.o)
            && GraphTerm(decode, raw.g) == Some(rest.g)
  {
    ReportedAt(d, qs, quads, i);
    var q := qs[i];
    DecodedAt(decode, d.predicates, |d.predicates|, q.t.p - 1);
    if q.t.o <= |d.shared| {
      DecodedAt(decode, d.shared, |d.shared|, q.t.o - 1);
    } else {
      DecodedAt(decode, d.objects, |d.objects|, q.t.o - |d.shared| - 1);
    }
    if RawAt(d, q).g != [] { GraphAt(decode, d.graphs, |d.graphs|, q.g); }
  }

  /** The reader's decoded sections. */
  method DecodeSections(f: HdtFile, decode: Decoder, ghost d: Dict, ghost quads: bool) returns (r: Option<Decoded>)
    ensures Written(f.shared, d.shared) && Written(f.predicates, d.predicates) && Written(f.objects, d.objects)
              && (if quads then f.graphs.Some? && Written(f.graphs.value, d.graphs) else f.graphs.None?)
              && Storable(d.shared) && Storable(d.predicates) && Storable(d.objects) && Storable(d.graphs)
              && DictDecodes(decode, d)
            ==> r.Some? && DecodedFrom(decode, r.value, d, quads)
  {
    if DictDecodes(decode, d) {
      AllDecode(decode, d.shared, |d.shared|);
      AllDecode(decode, d.predicates, |d.predicates|);
      AllDecode(decode, d.objects, |d.objects|);
      AllGraphs(decode, d.graphs, |d.graphs|);
    }
    var shared := DecodeSection(decode, f.shared, d.shared);
    var predicates := DecodeSection(decode, f.predicates, d.predicates);
    var objects := DecodeSection(decode, f.objects, d.objects);
    var graphs: Option<seq<Option<Term>>> := Some([]);
    if f.graphs.Some? {
      graphs := DecodeGraphs(decode, f.graphs.value, d.graphs);
    }
    if shared.None? || predicates.None? || objects.None? || graphs.None? {
      return None;
    }
    return Some(Decoded(shared.value, predicates.value, objects.value, graphs.value));
  }

  /** What turning reported ids into terms relies on. */
  ghost predicate Named(decode: Decoder, s: Decoded, own: PfcSection, d: Dict, qs: seq<Quad>, quads: bool) {
    && DecodedFrom(decode, s, d, quads) && Written(own, d.subjects) && Storable(d.subjects) && Sorted(d.graphs)
    && forall i :: 0 <= i < |qs| ==> Decodes(decode, d, qs[i], quads)
  }

  ghost predicate Decodes(decode: Decoder, d: Dict, q: Quad, quads: bool) {
    && InDict(d, q) && (if quads then q.g < |d.graphs| else d.graphs == []) && QuadOf(decode, RawAt(d, q)).Some?
  }

  /** The quad's dictionary strings decode to these terms. */
  ghost predicate TermsAre(decode: Decoder, d: Dict, q: Quad, t: TermQuad) {
    InDict(d, q) && QuadOf(decode, RawAt(d, q)) == Some(t)
  }

  lemma {:induction false} QuadFrom(decode: Decoder, raw: Raw, s: Term, rest: Tail)
    requires rest.Tail? && decode(raw.s) == Some(s) && decode(raw.p) == Some(rest.p) && decode(raw.o) == Some(rest.o)
    requires GraphTerm(decode, raw.g) == Some(rest.g)
    ensures QuadOf(decode, raw) == Some(TermQuad(s, rest.p, rest.o, rest.g))
  {
  }

  /** The sink of `each_quad`, with the last subject kept. */
  method ToTerms(decode: Decoder, s: Decoded, own: PfcSection, ids: seq<Quad>, ghost d: Dict, ghost qs: seq<Quad>,
                 ghost quads: bool)
    returns (r: Option<seq<TermQuad>>)
    ensures Named(decode, s, own, d, qs, quads) && ids == Reported(d, qs, quads) ==>
              && r.Some? && |r.value| == |qs|
              && forall i :: 0 <= i < |qs| ==> TermsAre(decode, d, qs[i], r.value[i])
  {
    ghost var good := Named(decode, s, own, d, qs, quads) && ids == Reported(d, qs, quads);
    var lastId: nat, last: Option<Term> := 0, None;
    var out: seq<TermQuad> := [];
    for i := 0 to |ids|
      invariant |out| == i && (good ==> i <= |qs|)
      invariant good ==> forall j :: 0 <= j < i ==> TermsAre(decode, d, qs[j], out[j])
      invariant good && last.Some? ==> 1 <= lastId <= |d.shared| + |d.subjects| && decode(SubjectAt(d, lastId)) == last
    {
      var q := ids[i];
      if good {
        ReportedLength(d, qs, quads);
        assert Decodes(decode, d, qs[i], quads);
        RestAt(decode, s, d, qs, quads, i);
        ReportedAt(d, qs, quads, i);
      }
      if last.None? || lastId != q.t.s {
        last := SubjectTerm(decode, s.shared, own, q.t.s, d);
        lastId := q.t.s;
      }
      var rest := Rest(s, q);
      if last.None? || rest.NoTail? {
        return None;
      }
      if good { QuadFrom(decode, RawAt(d, qs[i]), last.value, rest); }
      out := out + [TermQuad(last.value, rest.p, rest.o, rest.g)];
    }
    if good { ReportedLength(d, qs, quads); }
    return Some(out);
  }

  lemma {:induction false} ReportedLength(d: Dict, qs: seq<Quad>, quads: bool)
    ensures |Reported(d, qs, quads)| == |qs|
  {
  }

  /** `each_quad`: the written quads as terms, in id order. */
  method EachQuad(f: HdtFile, decode: Decoder, ghost d: Dict, ghost qs: seq<Quad>, ghost quads: bool,
                  ghost parts: Parts, ghost a: Arrays)
    returns (r: Option<seq<TermQuad>>)
    requires Holding(f, a) && (f.annex.Some? ==> QuadIds.Stores(f.annex.value, parts.layers))
    ensures Exported(f, d, qs, quads, parts) && a == Filled(parts.triples, |parts.triples|) && DictDecodes(decode, d)
              && (forall i :: 0 <= i < |qs| ==> Decodes(decode, d, qs[i], quads)) ==>
              && r.Some? && |r.value| == |qs|
              && forall i :: 0 <= i < |qs| ==> InDict(d, qs[i]) && QuadOf(decode, RawAt(d, qs[i])) == Some(r.value[i])
  {
    var sections := DecodeSections(f, decode, d, quads);
    var ids := EachQuadIds(f, d, qs, quads, parts, a);
    if sections.None? || ids.None? {
      return None;
    }
    r := ToTerms(decode, sections.value, f.subjects, ids.value, d, qs, quads);
  }
}

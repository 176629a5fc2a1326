/** Writing then reading HDTQ loses nothing: the end-to-end theorem over
    crates/graphy-hdt/src/writer.rs and crates/graphy-hdt/src/reader.rs. */
module HdtLossless {
  import opened Seqs
  import opened Terms
  import opened Concise
  import opened Codec
  import opened Section
  import opened BitmapTriples
  import opened QuadIds
  import opened HdtFile
  import opened HdtRead

  predicate Fits(s: Bytes) { NulFree(s) && |s| < TOP }

  /** Every string of the triple fits a section and decodes. */
  predicate RawOk(decode: Decoder, r: Raw) {
    && Fits(r.s) && Fits(r.p) && Fits(r.o) && Fits(r.g)
    && decode(r.s).Some? && decode(r.p).Some? && decode(r.o).Some? && GraphTerm(decode, r.g).Some?
  }

  lemma {:induction false} RawIsOk(c: Checks, q: TermQuad)
    requires Sane(c) && QuadOk(c, q) && RawOf(q).Some?
    ensures RawOk(DecoderOf(c), RawOf(q).value) && QuadOf(DecoderOf(c), RawOf(q).value) == Some(q)
  {
    RawRoundTrip(c, q);
  }

  lemma {:induction false} StorableSection(decode: Decoder, xs: seq<Bytes>)
    requires forall x :: x in xs ==> Fits(x)
    ensures Storable(xs)
  {
    forall i | 0 <= i < |xs| ensures Fits(xs[i]) { assert xs[i] in xs; }
  }

  ghost predicate StringsOk(decode: Decoder, d: Dict) {
    && (forall x :: x in d.shared || x in d.subjects || x in d.predicates || x in d.objects ==>
        Fits(x) && decode(x).Some?)
    && (forall x :: x in d.graphs ==> Fits(x) && GraphTerm(decode, x).Some?)
  }

  /** Every dictionary string is a component of some triple. */
  lemma {:induction false} DictStrings(decode: Decoder, d: Dict, subjects: seq<Bytes>, predicates: seq<Bytes>,
                                       objects: seq<Bytes>, triples: seq<Raw>, quads: bool)
    requires DictFor(d, subjects, predicates, objects, triples, quads)
    requires forall r :: r in triples ==> RawOk(decode, r)
    ensures StringsOk(decode, d)
  {
    forall x | x in d.shared || x in d.subjects || x in d.predicates || x in d.objects
      ensures Fits(x) && decode(x).Some?
    {
      WhereMembers(subjects, objects, true, x);
      WhereMembers(subjects, objects, false, x);
      WhereMembers(objects, d.shared, false, x);
      if x in subjects {
        var r :| r in triples && r.s == x;
      } else if x in objects {
        var r :| r in triples && r.o == x;
      } else {
        var r :| r in triples && r.p == x;
      }
    }
    forall x | x in d.graphs ensures Fits(x) && GraphTerm(decode, x).Some? {
      if quads {
        var r :| r in triples && r.g == x;
      }
    }
  }

  lemma {:induction false} SectionsOk(decode: Decoder, d: Dict)
    requires StringsOk(decode, d)
    ensures Storable(d.shared) && Storable(d.subjects) && Storable(d.predicates) && Storable(d.objects)
            && Storable(d.graphs)
    ensures DictDecodes(decode, d)
  {
    StorableSection(decode, d.shared);
    StorableSection(decode, d.subjects);
    StorableSection(decode, d.predicates);
    StorableSection(decode, d.objects);
    StorableSection(decode, d.graphs);
  }

  lemma {:induction false} AllDecodes(decode: Decoder, d: Dict, triples: seq<Raw>, qs: seq<Quad>, quads: bool)
    requires Assigned(d, triples, qs) && GraphsFor(d.graphs, triples, quads)
    requires forall r :: r in triples ==> RawOk(decode, r)
    ensures forall i :: 0 <= i < |qs| ==> Decodes(decode, d, qs[i], quads)
  {
    LayersInRange(d, triples, qs, quads);
    forall i | 0 <= i < |qs| ensures Decodes(decode, d, qs[i], quads) {
      assert qs[i] in qs;
      assert RawOk(decode, RawAt(d, qs[i]));
    }
  }

  /** Distinct ids decode to distinct quads, and every added quad has ids. */
  lemma {:induction false} NothingLost(c: Checks, d: Dict, triples: seq<Raw>, added: seq<TermQuad>, qs: seq<Quad>,
                                       out: seq<TermQuad>)
    requires Sane(c) && Assigned(d, triples, qs) && StringsOf(triples, added) && forall q :: q in added ==> QuadOk(c, q)
    requires |out| == |qs| && forall i :: 0 <= i < |qs| ==>
             InDict(d, qs[i]) && QuadOf(DecoderOf(c), RawAt(d, qs[i])) == Some(out[i])
    ensures NoDup(out) && forall q :: q in out <==> q in added
  {
    forall i | 0 <= i < |qs| ensures out[i] in added && RawOf(out[i]) == Some(RawAt(d, qs[i])) {
      assert qs[i] in qs;
      var j :| 0 <= j < |triples| && triples[j] == RawAt(d, qs[i]);
      assert added[j] in added;
      RawRoundTrip(c, added[j]);
    }
    forall i, j | 0 <= i < j < |out| ensures out[i] != out[j] {
      assert LessQuad(qs[i], qs[j]);
      assert qs[i] in qs && qs[j] in qs;
      assert IdsOf(d, RawAt(d, qs[i])) == qs[i] && IdsOf(d, RawAt(d, qs[j])) == qs[j];
    }
    forall q | q in added ensures q in out {
      var j :| 0 <= j < |added| && added[j] == q;
      assert triples[j] in triples;
      var i :| 0 <= i < |qs| && qs[i] == IdsOf(d, triples[j]);
      IdsName(d, triples[j]);
      RawRoundTrip(c, q);
      assert out[i] == q;
    }
  }

  /** After any run of `AddQuad` calls, reading what was written reports each added
      quad exactly once, and no error. */
  method ExportImport(w: HdtWriter, c: Checks) returns (r: Option<seq<TermQuad>>)
    requires Sane(c) && w.Valid() && forall q :: q in w.added ==> QuadOk(c, q)
    ensures r.Some? && NoDup(r.value) && forall q :: q in r.value <==> q in w.added
  {
    var f;
    ghost var d, qs, parts;
    f, d, qs, parts := w.WriteTo();
    ghost var a := Filled(parts.triples, |parts.triples|);
    WriterFacts(w, c, d, qs);
    r := EachQuad(f, DecoderOf(c), d, qs, w.quads, parts, a);
    NothingLost(c, d, w.triples, w.added, qs, r.value);
  }

  lemma {:induction false} WriterFacts(w: HdtWriter, c: Checks, d: Dict, qs: seq<Quad>)
    requires Sane(c) && w.Valid() && forall q :: q in w.added ==> QuadOk(c, q)
    requires DictFor(d, w.subjects, w.predicates, w.objects, w.triples, w.quads) && Assigned(d, w.triples, qs)
    ensures Storable(d.shared) && Storable(d.subjects) && Storable(d.predicates) && Storable(d.objects)
            && Storable(d.graphs)
    ensures DictDecodes(DecoderOf(c), d) && forall i :: 0 <= i < |qs| ==> Decodes(DecoderOf(c), d, qs[i], w.quads)
  {
    forall r | r in w.triples ensures RawOk(DecoderOf(c), r) {
      var j :| 0 <= j < |w.triples| && w.triples[j] == r;
      assert w.added[j] in w.added;
      RawIsOk(c, w.added[j]);
    }
    DictStrings(DecoderOf(c), d, w.subjects, w.predicates, w.objects, w.triples, w.quads);
    SectionsOk(DecoderOf(c), d);
    AllDecodes(DecoderOf(c), d, w.triples, qs, w.quads);
  }
}

/** The import with its inline gate (crates/graphy-hdt/src/import.rs, `inline_id`):
    plain literals whose canonical form inlines become term ids. */
module ImportTerms {
  import opened Seqs
  import opened Terms
  import opened Concise
  import InlineId
  import opened Import

  /** The id of a literal, which always carries a tag. */
  function LiteralId(p: InlineId.Platform, lex: Bytes, dt: Bytes): (r: Option<nat>)
    ensures r.Some? ==> r.value >= DICT_LIMIT
  {
    match InlineId.TryInline(p, lex, dt)
    case None => None
    case Some(id) => InlineId.InlineTagged(InlineId.ParseValue(p, lex, dt).value); Some(id)
  }

  /** `inline_id`; bytes that do not decode have no id. */
  function TermInline(c: Checks, p: InlineId.Platform, bytes: Bytes): Option<nat> {
    match DecodeAt(c, bytes, 0)
    case Some(Simple(lex)) => LiteralId(p, lex, XSD_STRING)
    case Some(Typed(lex, dt)) => LiteralId(p, lex, dt)
    case _ => None
  }

  function Gate(c: Checks, p: InlineId.Platform): Bytes -> Option<nat> { (bytes: Bytes) => TermInline(c, p, bytes) }

  /** The literal of a text and datatype; plain text is an `xsd:string`. */
  function LiteralOf(lex: Bytes, dt: Bytes): Term { if dt == XSD_STRING then Simple(lex) else Typed(lex, dt) }

  /** Bytes with an id are those of the literal they decode to. */
  lemma {:induction false} GatedBytes(c: Checks, p: InlineId.Platform, bytes: Bytes) returns (lex: Bytes, dt: Bytes)
    requires TermInline(c, p, bytes).Some?
    ensures bytes == Encode(LiteralOf(lex, dt)) && c.utf8(lex)
    ensures InlineId.TryInline(p, lex, dt) == Some(TermInline(c, p, bytes).value)
  {
    var t := DecodeAt(c, bytes, 0).value;
    DecodeAccepted(c, bytes, 0);
    lex, dt := t.lex, if t.Simple? then XSD_STRING else t.dt;
  }

  /** Exactly which bytes have an inline id: those of a literal without language tag
      whose text is the canonical text of a value in range. */
  lemma {:induction false} GateIff(c: Checks, p: InlineId.Platform, bytes: Bytes, id: nat)
    requires p.utf8 == c.utf8
    ensures Gate(c, p)(bytes) == Some(id) <==>
            exists v, lex, dt :: InlineId.CanonicalFor(p, v, lex, dt) && InlineId.Inline(v) == Some(id) &&
                                 DecodeAt(c, bytes, 0) == Some(LiteralOf(lex, dt))
  {
    if DecodeAt(c, bytes, 0).Some? {
      var t := DecodeAt(c, bytes, 0).value;
      DecodeAccepted(c, bytes, 0);
      if t.Simple? || t.Typed? {
        var dt := if t.Simple? then XSD_STRING else t.dt;
        assert LiteralOf(t.lex, dt) == t;
        InlineId.TryInlineIff(p, t.lex, dt, id);
      }
    }
  }

  /** Distinct byte strings never share an inline id. */
  lemma {:induction false} GateInjective(c: Checks, p: InlineId.Platform, a: Bytes, b: Bytes)
    requires p.utf8 == c.utf8 && TermInline(c, p, a).Some? && TermInline(c, p, a) == TermInline(c, p, b)
    ensures a == b
  {
    var lex, dt := GatedBytes(c, p, a);
    var lex', dt' := GatedBytes(c, p, b);
    InlineId.TryInlineInjective(p, lex, dt, lex', dt');
  }

  lemma {:induction false} KeptShorter(inline: Bytes -> Option<nat>, objects: seq<Bytes>, n: nat)
    requires n <= |objects|
    ensures |Kept(inline, objects, n)| <= n
  {
    if n > 0 { KeptShorter(inline, objects, n - 1); }
  }

  /** Importing conserves quads: every quad of the file is mapped, to columns that
      denote its own terms and graph and those of no other quad. */
  method ImportQuads(c: Checks, p: InlineId.Platform, hdt: Sections, quads: seq<Cols>)
    returns (seg: Sections, out: seq<Cols>)
    requires p.utf8 == c.utf8
    requires forall i :: 0 <= i < |quads| ==> Known(hdt, quads[i])
    requires |hdt.shared| + |hdt.objects| <= DICT_LIMIT
    ensures |out| == |quads|
    ensures forall i :: 0 <= i < |quads| ==> Denotes(Gate(c, p), seg, out[i], HdtQuad(hdt, quads[i]))
    ensures forall i, q :: 0 <= i < |quads| && Denotes(Gate(c, p), seg, out[i], q) && q.g != Some([]) ==>
            q == HdtQuad(hdt, quads[i])
  {
    var mapped;
    ghost var m;
    seg, mapped, m := ImportSegment(Gate(c, p), hdt, quads);
    assert |seg.objects| <= |hdt.objects| by {
      KeptShorter(Gate(c, p), hdt.objects, |hdt.objects|);
      assert |seg.objects| == |multiset(seg.objects)|;
      assert |Kept(Gate(c, p), hdt.objects, |hdt.objects|)| == |multiset(Kept(Gate(c, p), hdt.objects, |hdt.objects|))|;
    }
    assert Tagged(Gate(c, p), hdt.objects);
    forall i | 0 <= i < |quads|
      ensures MapQuad(m, quads[i]).Some? && Denotes(Gate(c, p), seg, MapQuad(m, quads[i]).value, HdtQuad(hdt, quads[i]))
    {
      QuadConserved(Gate(c, p), hdt, seg, m, quads[i]);
    }
    out := mapped.value;
    forall a, b | Gate(c, p)(a).Some? && Gate(c, p)(a) == Gate(c, p)(b) ensures a == b { GateInjective(c, p, a, b); }
    forall i, q | 0 <= i < |quads| && Denotes(Gate(c, p), seg, out[i], q) && q.g != Some([])
      ensures q == HdtQuad(hdt, quads[i])
    {
      DenotesUnique(Gate(c, p), seg, out[i], q, HdtQuad(hdt, quads[i]));
    }
  }
}
